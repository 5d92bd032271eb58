/** Runs of the daemon's loop in which it does not do what one might expect of it.
    Source: src/main.rs, lines 494-617 and 726-950. */
module DaemonSamples {
  import opened Options
  import opened Text
  import opened Targets
  import opened Policy
  import opened DaemonLoop
  import opened DaemonSafety
  import opened DaemonVerdicts
  import opened DaemonModules
  import opened DaemonFile
  import opened PolicyRecord
  import opened PolicyEdits
  import opened UnterminatedFile

  const BIN := "/bin/a"
  const OTHER := "/bin/b"

  /** A connection from 1:1000 to port 443 of the given address. */
  function To(dst: nat): Seen {
    Seen(FlowKey(6, V4(1), 1000, V4(dst), 443), true, false)
  }

  function From(exe: string, dst: nat): Query {
    Query(Some(exe), V4(dst), None, 443)
  }

  function Opens(exe: string, dst: nat): Event {
    PacketSeen(To(dst), Some(exe), None, None, "")
  }

  function Answers(ans: Answer): Event {
    AnswerDrained(0, ans, None, "")
  }

  /** In enforcement, nothing asked, no pins, asking by default. */
  predicate Idle(s: Loop, rules: set<Rule>) {
    && s.mode == Enforcement && s.asking == {} && s.prompts == [] && s.kern == None
    && s.pol.rules == rules && s.pol.dflt == Ask && s.pol.appId == map[]
  }

  lemma StartIsIdle(net: AddrSyntax)
    ensures Idle(Start(net, Enforcement, "", None), {}) && Start(net, Enforcement, "", None).decided == map[]
  {
    LinesOfNothing();
  }

  lemma ToIsJudged(exe: string, dst: nat)
    ensures Judged(To(dst)) && QueryFor(To(dst).flow, Some(exe), None) == From(exe, dst)
  {
  }

  /** One question on screen. */
  predicate Asking(net: AddrSyntax, s: Loop, rules: set<Rule>, q: Query) {
    && s.mode == Enforcement && s.asking == {QuestionOf(net, q)} && s.prompts == [PendingFor(q)] && s.kern == None
    && s.pol.rules == rules && s.pol.dflt == Ask && s.pol.appId == map[]
  }

  lemma Raises(net: AddrSyntax, s: Loop, rules: set<Rule>, exe: string, dst: nat)
    requires Idle(s, rules) && To(dst).flow !in s.decided && Decide(s.pol, From(exe, dst)) == Ask
    ensures var u := After(net, Enforcement, s, Opens(exe, dst));
            Asking(net, u, rules, From(exe, dst)) && u.decided == s.decided && u.pol == s.pol
  {
    ToIsJudged(exe, dst);
    hide Decide, QuestionOf, PendingFor, From, To;
  }

  lemma AskedOfFrom(exe: string, dst: nat)
    ensures AskedOf(PendingFor(From(exe, dst))) == From(exe, dst) && PendingFor(From(exe, dst)).exe == Some(exe)
  {
  }

  lemma RecordAddsRule(net: AddrSyntax, m: Meaning, text: string, ans: Answer, q: Query, note: string)
    requires RecordedRule(ans, q).Some?
    ensures Record(net, m, text, ans, q, note).0 == m.(rules := m.rules + {RecordedRule(ans, q).value})
  {
    hide Line, RecordedRule, RecordedValue;
  }

  lemma UnpinnedRepin(m: Meaning, text: string, exe: Option<string>, ans: Answer)
    requires m.appId == map[]
    ensures Repin(m, text, exe, ans, None) == (m, text)
  {
    if exe.Some? {
      assert m.appId - {exe.value} == m.appId;
    }
  }

  lemma IsAnswered(net: AddrSyntax, s: Loop, rules: set<Rule>, exe: string, dst: nat, ans: Answer)
    requires Asking(net, s, rules, From(exe, dst)) && RecordedRule(ans, From(exe, dst)).Some?
    ensures Possible(s, Answers(ans)) && RecordedBy(s, Answers(ans)) == Some((ans, From(exe, dst)))
    ensures var u := After(net, Enforcement, s, Answers(ans));
            Idle(u, rules + {RecordedRule(ans, From(exe, dst)).value}) && u.decided == s.decided
  {
    var q := From(exe, dst);
    AskedOfFrom(exe, dst);
    PromptCarriesItsQuestion(net, q);
    UnpinnedRepin(s.pol, s.disk.text, Some(exe), ans);
    RecordAddsRule(net, s.pol, s.disk.text, ans, q, "");
    TellKeepsTheRest(s, WaitingOn(s, QuestionOf(net, q)), Allows(ans));
    hide Record, Repin, Tell, KeyOf, QuestionOf, PendingFor, From, RecordedRule;
  }

  /** A question is raised and answered. */
  lemma AskAndAnswer(net: AddrSyntax, s: Loop, rules: set<Rule>, exe: string, dst: nat, ans: Answer)
    requires Idle(s, rules) && To(dst).flow !in s.decided && Decide(s.pol, From(exe, dst)) == Ask
    requires RecordedRule(ans, From(exe, dst)).Some?
    ensures var s1 := After(net, Enforcement, s, Opens(exe, dst));
            && Possible(s1, Answers(ans)) && s1.decided == s.decided && s1.pol == s.pol && s1.mode == Enforcement
            && var s2 := After(net, Enforcement, s1, Answers(ans));
               && Idle(s2, rules + {RecordedRule(ans, From(exe, dst)).value}) && s2.decided == s.decided
  {
    hide Decide, Record, From, To, RecordedRule, After, Possible, Idle;
    OpensIsPossible(s, exe, dst);
    Raises(net, s, rules, exe, dst);
    IsAnswered(net, After(net, Enforcement, s, Opens(exe, dst)), rules, exe, dst, ans);
  }

  lemma Settles(net: AddrSyntax, s: Loop, rules: set<Rule>, exe: string, dst: nat)
    requires Idle(s, rules) && s.decided == map[] && Decide(s.pol, From(exe, dst)) == Allow
    ensures var u := After(net, Enforcement, s, Opens(exe, dst));
            && Idle(u, rules) && u.decided == map[To(dst).flow := Settled(From(exe, dst), Allow)]
  {
    ToIsJudged(exe, dst);
    hide Decide;
    assert |s.decided| == 0;
  }

  lemma NoRule(m: Meaning, q: Query)
    requires m.rules == {}
    ensures Decide(m, q) == m.dflt
  {
    DecideIsDeclarative(m, q);
    hide Decide, Matches;
  }

  lemma OneRule(m: Meaning, r: Rule, q: Query)
    requires m.rules == {r}
    ensures Decide(m, q) == if Matches(r, q) then (if r.allow then Allow else Deny) else m.dflt
  {
    DecideIsDeclarative(m, q);
    hide Decide, Matches;
    if Matches(r, q) {
      assert r in m.rules;
    }
  }

  lemma DeniedByOne(m: Meaning, r: Rule, q: Query)
    requires r in m.rules && !r.allow && Matches(r, q)
    ensures Decide(m, q) == Deny
  {
    DecideIsDeclarative(m, q);
    hide Decide, Matches;
  }

  lemma RulesOfA()
    ensures RecordedRule(AllowConn, From(BIN, 2)) == Some(DestFrom(true, BIN, V4(2), Some(443)))
    ensures RecordedRule(BlockApp, From(BIN, 3)) == Some(App(false, BIN))
    ensures var r := DestFrom(true, BIN, V4(2), Some(443));
            Matches(r, From(BIN, 2)) && !Matches(r, From(BIN, 3)) && !Matches(r, From(OTHER, 2))
    ensures Matches(App(false, BIN), From(BIN, 2)) && To(2).flow != To(3).flow
  {
    assert BIN[5] != OTHER[5];
  }

  function Story(): seq<Event> {
    [Opens(BIN, 2), Answers(AllowConn), Opens(BIN, 2), Opens(BIN, 3), Answers(BlockApp)]
  }

  lemma AboutIdle(s: Loop, rules: set<Rule>, same: set<Rule>)
    requires Idle(s, rules) && rules == same
    ensures Idle(s, same) && s.pol.rules == same && s.pol.dflt == Ask && s.mode == Enforcement && s.pol.appId == map[]
  {
  }

  lemma OpensIsPossible(s: Loop, exe: string, dst: nat)
    ensures Possible(s, Opens(exe, dst))
  {
  }

  lemma StoryRuns(net: AddrSyntax, ss: seq<Loop>)
    requires |ss| == 6 && ss[0] == Start(net, Enforcement, "", None)
    requires Possible(ss[1], Answers(AllowConn)) && Possible(ss[4], Answers(BlockApp))
    requires ss[1] == After(net, Enforcement, ss[0], Opens(BIN, 2)) && ss[2] == After(net, Enforcement, ss[1], Answers(AllowConn))
    requires ss[3] == After(net, Enforcement, ss[2], Opens(BIN, 2)) && ss[4] == After(net, Enforcement, ss[3], Opens(BIN, 3))
    requires ss[5] == After(net, Enforcement, ss[4], Answers(BlockApp))
    ensures Runs(net, Enforcement, "", None, Story(), ss)
  {
    hide After, Start;
    var es := Story();
    assert es[0] == Opens(BIN, 2) && es[1] == Answers(AllowConn) && es[2] == Opens(BIN, 2) && es[3] == Opens(BIN, 3)
        && es[4] == Answers(BlockApp);
  }

  lemma RememberedAllow(s: Loop, u: Loop)
    requires s.decided == map[To(2).flow := Settled(From(BIN, 2), Allow)] && u.decided == s.decided
    requires Decide(s.pol, From(BIN, 2)) == Allow && Decide(u.pol, From(BIN, 2)) == Deny
    requires s.mode == Enforcement && u.mode == Enforcement
    ensures Agrees(s) && !Agrees(u)
    ensures forall exe :: FateOf(s, To(2), exe, None, None) == Reinject && FateOf(u, To(2), exe, None, None) == Reinject
  {
    hide Decide, Judge, QueryFor;
    assert To(2).flow in u.decided;
  }

  lemma UnpinnedIsUnchanged(m: Meaning, q: Query)
    requires m.appId == map[]
    ensures Judge(m, q, None) == Decide(m, q)
  {
    hide Decide;
  }

  /** One connection of /bin/a is approved and made, another is answered with a
      block of all of /bin/a: the first flow passes on its remembered allow though
      the policy now denies it. And before that answer, another binary on the
      remembered flow passes though the policy would ask about it. */
  lemma BlockOvertakesAllow(net: AddrSyntax) returns (ss: seq<Loop>)
    ensures Runs(net, Enforcement, "", None, Story(), ss)
    ensures Agrees(ss[4]) && !Agrees(ss[5])
    ensures FateOf(ss[5], To(2), Some(BIN), None, None) == Reinject && Decide(ss[5].pol, From(BIN, 2)) == Deny
    ensures FateOf(ss[4], To(2), Some(OTHER), None, None) == Reinject && Judge(ss[4].pol, From(OTHER, 2), None) == Ask
  {
    hide *;
    var s0 := Start(net, Enforcement, "", None);
    var r := DestFrom(true, BIN, V4(2), Some(443));
    StartIsIdle(net);
    AboutIdle(s0, {}, {});
    RulesOfA();
    NoRule(s0.pol, From(BIN, 2));
    AskAndAnswer(net, s0, {}, BIN, 2, AllowConn);
    OpensIsPossible(s0, BIN, 2);
    var s1 := After(net, Enforcement, s0, Opens(BIN, 2));
    var s2 := After(net, Enforcement, s1, Answers(AllowConn));
    AboutIdle(s2, {} + {r}, {r});
    OneRule(s2.pol, r, From(BIN, 2));
    Settles(net, s2, {r}, BIN, 2);
    OpensIsPossible(s2, BIN, 2);
    var s3 := After(net, Enforcement, s2, Opens(BIN, 2));
    AboutIdle(s3, {r}, {r});
    OneRule(s3.pol, r, From(BIN, 2));
    OneRule(s3.pol, r, From(BIN, 3));
    OneRule(s3.pol, r, From(OTHER, 2));
    AskAndAnswer(net, s3, {r}, BIN, 3, BlockApp);
    OpensIsPossible(s3, BIN, 3);
    var s4 := After(net, Enforcement, s3, Opens(BIN, 3));
    var s5 := After(net, Enforcement, s4, Answers(BlockApp));
    AboutIdle(s5, {r} + {App(false, BIN)}, {r} + {App(false, BIN)});
    DeniedByOne(s5.pol, App(false, BIN), From(BIN, 2));
    UnpinnedIsUnchanged(s4.pol, From(OTHER, 2));
    ss := [s0, s1, s2, s3, s4, s5];
    StoryRuns(net, ss);
    RememberedAllow(s4, s5);
  }

  // ---- an edit that is never read ----

  /** A file of one line, such as "mode enforcement". */
  function OnlySetting(s: Setting): string {
    Line(s.Key(), s.Spelling(), None) + "\n"
  }

  lemma OnlySettingMeans(net: AddrSyntax, s: Setting)
    ensures Terminated(OnlySetting(s)) && Load(net, OnlySetting(s)) == s.Set(NOTHING)
  {
    SettingLineMeans(net, s);
    NoPad(Line(s.Key(), s.Spelling(), None));
    LinesOfNothing();
    assert Load(net, "") == NOTHING;
    hide Load, EffectOf, Line, Setting.Key, Setting.Spelling;
    AppendLine(net, "", Line(s.Key(), s.Spelling(), None));
  }

  function Enforce(): string { OnlySetting(ModeSetting(Enforcement)) }

  lemma OpensIsClean()
    ensures CleanEvent(Opens(BIN, 2))
    ensures Enforce() == OnlySetting(ModeSetting(Enforcement))
    ensures ModeSetting(Enforcement).Set(NOTHING).mode == Some(Enforcement) && NOTHING.attribution == None
  {
    hide OnlySetting;
    assert CleanText(BIN);
  }

  lemma OpensLearns(s: Loop)
    requires s.mode == Visibility && s.decided == map[] && s.pol == NOTHING
    ensures LearnsAt(s, Opens(BIN, 2))
  {
    ToIsJudged(BIN, 2);
    NoRule(s.pol, From(BIN, 2));
    UnpinnedIsUnchanged(s.pol, From(BIN, 2));
    hide Judge, Decide, QueryFor, From, To;
  }

  lemma LearnsBehind(net: AddrSyntax, s: Loop, e: Event, m: Meaning)
    requires Lawful(net) && LearnsAt(s, e) && CleanEvent(e) && Terminated(s.disk.text) && Load(net, s.disk.text) == m
    ensures var u := After(net, Visibility, s, e);
            SameGoverning(s, u) && !Stale(u) && Load(net, u.disk.text).mode == m.mode
  {
    var q := QueryFor(e.seen.flow, e.exe, e.host);
    assert RecordedRule(AllowConn, q).Some?;
    PacketWrites(net, s, e);
    PacketGovernsTheSame(net, s, e.seen, e.exe, e.host, e.actual, e.note);
    InsertKeepsMode(m, RecordedRule(AllowConn, q).value);
    CleanOpening(s, e);
    hide *;
    RecordBehind(net, s.pol, s.disk.text, AllowConn, q, e.note);
    NotedAsPacket(net, s, e);
  }

  lemma InsertKeepsMode(m: Meaning, r: Rule)
    ensures Apply(m, Insert(r)).mode == m.mode
  {
  }

  lemma CleanOpening(s: Loop, e: Event)
    requires LearnsAt(s, e) && CleanEvent(e)
    ensures CleanQuery(QueryFor(e.seen.flow, e.exe, e.host)) && '\n' !in e.note
  {
    hide CleanQuery, QueryFor, Judge;
  }

  lemma NotedAsPacket(net: AddrSyntax, s: Loop, e: Event)
    requires e.PacketSeen? && LearnsAt(s, e)
    ensures Possible(s, e) && After(net, Visibility, s, e) == Packet(net, s, e.seen, e.exe, e.host, e.actual, e.note)
    ensures !Stale(After(net, Visibility, s, e))
  {
    PacketWrites(net, s, e);
    hide Packet, Learns, Record;
  }

  lemma IdleTick(net: AddrSyntax, fallback: Mode, s: Loop)
    requires s.mode == Visibility && s.kern == None && !s.upcallOn && !Stale(s) && s.pol.attribution == None
    ensures Possible(s, Ticked(false, None, None, false)) && After(net, fallback, s, Ticked(false, None, None, false)) == s
  {
    hide Load, Reload, TearDown;
  }

  function Overtaken(): seq<Event> {
    [Edited(Enforce()), Opens(BIN, 2), Ticked(false, None, None, false)]
  }

  lemma OvertakenRuns(net: AddrSyntax, ss: seq<Loop>)
    requires |ss| == 4 && ss[0] == Start(net, Visibility, "", None)
    requires Possible(ss[0], Edited(Enforce())) && ss[1] == After(net, Visibility, ss[0], Edited(Enforce()))
    requires Possible(ss[1], Opens(BIN, 2)) && ss[2] == After(net, Visibility, ss[1], Opens(BIN, 2))
    requires Possible(ss[2], Ticked(false, None, None, false)) && ss[3] == After(net, Visibility, ss[2], Ticked(false, None, None, false))
    ensures Runs(net, Visibility, "", None, Overtaken(), ss)
  {
    hide After, Start, Enforce, Opens, Possible;
    var es := Overtaken();
    assert es[0] == Edited(Enforce()) && es[1] == Opens(BIN, 2) && es[2] == Ticked(false, None, None, false);
  }

  lemma StartSees(net: AddrSyntax)
    ensures Possible(Start(net, Visibility, "", None), Edited(Enforce()))
    ensures var s1 := After(net, Visibility, Start(net, Visibility, "", None), Edited(Enforce()));
            && s1.mode == Visibility && s1.decided == map[] && s1.pol == NOTHING && s1.disk.text == Enforce()
            && s1.kern == None && !s1.upcallOn
  {
    LinesOfNothing();
    hide Enforce;
  }

  /** In visibility the file is edited to ask for enforcement, and before the next
      tick a packet is learned: the tick finds nothing to read, and the mode stays
      visibility. */
  lemma EditIsOvertaken(net: AddrSyntax) returns (ss: seq<Loop>)
    requires Lawful(net)
    ensures Runs(net, Visibility, "", None, Overtaken(), ss)
    ensures !Stale(ss[3]) && ss[3].mode == Visibility && Load(net, ss[3].disk.text).mode == Some(Enforcement)
  {
    StartSees(net);
    OpensIsClean();
    OnlySettingMeans(net, ModeSetting(Enforcement));
    hide *;
    var s0 := Start(net, Visibility, "", None);
    var s1 := After(net, Visibility, s0, Edited(Enforce()));
    OpensLearns(s1);
    OpensIsPossible(s1, BIN, 2);
    LearnsBehind(net, s1, Opens(BIN, 2), Load(net, Enforce()));
    var s2 := After(net, Visibility, s1, Opens(BIN, 2));
    StaysTheSame(s1, s2);
    IdleTick(net, Visibility, s2);
    var s3 := After(net, Visibility, s2, Ticked(false, None, None, false));
    ss := [s0, s1, s2, s3];
    OvertakenRuns(net, ss);
  }

  lemma StaysTheSame(s: Loop, u: Loop)
    requires SameGoverning(s, u)
    ensures u.mode == s.mode && u.kern == s.kern && u.upcallOn == s.upcallOn && u.pol.attribution == s.pol.attribution
  {
  }

  // ---- a request that outlived its module ----

  function Attributes(): string { OnlySetting(AttributionSetting(Kernel)) }

  /** Kernel attribution in enforcement, nothing asked and nothing resolved. */
  predicate Ready(s: Loop, kern: Option<nat>, gone: set<nat>) {
    && s.mode == Enforcement && s.pol == NOTHING.(attribution := Some(Kernel)) && !Stale(s)
    && s.kern == kern && s.upcallOn == kern.Some? && s.unloaded == gone
    && s.asking == {} && s.prompts == [] && s.waiting == map[] && s.taken == {} && s.resolved == []
  }

  function Late(): Event {
    UpcallDrained(Ticket(1, 5), BIN, V4(2), None, 443, None)
  }

  function Connects(h: nat): Event { Ticked(false, Some(h), None, true) }

  const GOES := Ticked(true, None, None, false)

  lemma Connected(net: AddrSyntax, s: Loop, gone: set<nat>, h: nat)
    requires Ready(s, None, gone) && h !in gone
    ensures Possible(s, Connects(h)) && Ready(After(net, Enforcement, s, Connects(h)), Some(h), gone)
  {
    hide Load, Reload, AllWaiting, Flushed;
  }

  lemma Gone(net: AddrSyntax, s: Loop, gone: set<nat>, h: nat)
    requires Ready(s, Some(h), gone)
    ensures Possible(s, GOES) && Ready(After(net, Enforcement, s, GOES), None, gone + {h})
  {
    hide Load, Reload, AllWaiting, Flushed;
  }

  lemma LateWaits(net: AddrSyntax, s: Loop, gone: set<nat>)
    requires Ready(s, Some(2), gone)
    ensures Possible(s, Late())
    ensures var u, q := After(net, Enforcement, s, Late()), From(BIN, 2);
            && u.kern == Some(2) && u.prompts == [PendingFor(q)] && u.resolved == []
            && WaitingOn(u, QuestionOf(net, q)) == [Ticket(1, 5)]
  {
    var q := From(BIN, 2);
    assert q == Query(Some(BIN), V4(2), None, 443);
    NoRule(s.pol, q);
    UnpinnedIsUnchanged(s.pol, q);
    hide Judge, Decide, QuestionOf, PendingFor, From, Tell;
  }

  lemma LateIsAnswered(net: AddrSyntax, s: Loop)
    requires s.kern == Some(2) && s.prompts == [PendingFor(From(BIN, 2))] && s.resolved == []
    requires WaitingOn(s, QuestionOf(net, From(BIN, 2))) == [Ticket(1, 5)]
    ensures Possible(s, Answers(Timeout))
    ensures After(net, Enforcement, s, Answers(Timeout)).resolved == [Resolution(2, Ticket(1, 5), false)]
  {
    PromptCarriesItsQuestion(net, From(BIN, 2));
    hide KeyOf, QuestionOf, PendingFor, From, Record, Repin;
  }

  function Outlived(): seq<Event> {
    [Connects(1), GOES, Connects(2), Late(), Answers(Timeout)]
  }

  lemma OutlivedRuns(net: AddrSyntax, ss: seq<Loop>)
    requires |ss| == 6 && ss[0] == Start(net, Enforcement, Attributes(), None)
    requires Possible(ss[0], Connects(1)) && ss[1] == After(net, Enforcement, ss[0], Connects(1))
    requires Possible(ss[1], GOES) && ss[2] == After(net, Enforcement, ss[1], GOES)
    requires Possible(ss[2], Connects(2)) && ss[3] == After(net, Enforcement, ss[2], Connects(2))
    requires Possible(ss[3], Late()) && ss[4] == After(net, Enforcement, ss[3], Late())
    requires Possible(ss[4], Answers(Timeout)) && ss[5] == After(net, Enforcement, ss[4], Answers(Timeout))
    ensures Runs(net, Enforcement, Attributes(), None, Outlived(), ss)
  {
    hide After, Start, Possible, Attributes;
    var es := Outlived();
    assert es[0] == Connects(1) && es[1] == GOES && es[2] == Connects(2) && es[3] == Late() && es[4] == Answers(Timeout);
  }

  /** Module 1 is unloaded, module 2 takes its place, and only then a request of
      module 1 is drained: it waits, and its answer goes to module 2. */
  lemma RequestOutlivesItsModule(net: AddrSyntax) returns (ss: seq<Loop>)
    ensures Runs(net, Enforcement, Attributes(), None, Outlived(), ss)
    ensures ss[5].resolved == [Resolution(2, Ticket(1, 5), false)] && !OwnAnswers(ss[5].resolved)
  {
    var s0 := Start(net, Enforcement, Attributes(), None);
    hide *;
    StartIsReady(net);
    Connected(net, s0, {}, 1);
    var s1 := After(net, Enforcement, s0, Connects(1));
    Gone(net, s1, {}, 1);
    var s2 := After(net, Enforcement, s1, GOES);
    Connected(net, s2, {} + {1}, 2);
    var s3 := After(net, Enforcement, s2, Connects(2));
    LateWaits(net, s3, {} + {1});
    var s4 := After(net, Enforcement, s3, Late());
    LateIsAnswered(net, s4);
    var s5 := After(net, Enforcement, s4, Answers(Timeout));
    ss := [s0, s1, s2, s3, s4, s5];
    OutlivedRuns(net, ss);
    Misrouted();
  }

  lemma StartIsReady(net: AddrSyntax)
    ensures Ready(Start(net, Enforcement, Attributes(), None), None, {})
  {
    OnlySettingMeans(net, AttributionSetting(Kernel));
    hide Load, OnlySetting;
  }

  lemma Misrouted()
    ensures !OwnAnswers([Resolution(2, Ticket(1, 5), false)])
  {
    var rs := [Resolution(2, Ticket(1, 5), false)];
    assert rs[0].handle != rs[0].ticket.source;
  }
}
