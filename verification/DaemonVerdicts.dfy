/** What a verdict is worth after it was reached: remembered by flow, pushed to the
    kernel, overtaken by a later answer. Source: src/main.rs, lines 494-524, 592-660
    and 726-950. */
module DaemonVerdicts {
  import opened Options
  import opened Text
  import opened Targets
  import opened Policy
  import opened DaemonLoop
  import opened DaemonSafety

  // ---- one record against one settled verdict ----

  /** A settled verdict is the policy's own. */
  predicate Holds(m: Meaning, d: Settled) {
    d.verdict != Ask && d.verdict == Decide(m, d.query)
  }

  /** When a recorded answer turns the policy against a settled verdict: a block
      whose rule covers an allowed query, or an allow whose rule covers a query
      that only the default denies. */
  ghost predicate Overtakes(m: Meaning, ans: Answer, q: Query, d: Settled) {
    && RecordedRule(ans, q).Some? && Matches(RecordedRule(ans, q).value, d.query)
    && if Allows(ans) then d.verdict == Deny && !Covered(m.rules, false, d.query) else d.verdict == Allow
  }

  /** A record leaves a settled verdict standing if and only if it does not overtake it. */
  lemma RecordOvertakes(net: AddrSyntax, m: Meaning, text: string, ans: Answer, q: Query, note: string, d: Settled)
    requires Holds(m, d)
    ensures Holds(Record(net, m, text, ans, q, note).0, d) <==> !Overtakes(m, ans, q, d)
  {
    var m' := Record(net, m, text, ans, q, note).0;
    DecideIsDeclarative(m, d.query);
    DecideIsDeclarative(m', d.query);
    if RecordedRule(ans, q).Some? {
      RecordedColour(ans, q);
      hide Decide, Matches, Line, RecordedValue, Covered, RecordedRule;
      CoveredByOneMore(m.rules, RecordedRule(ans, q).value, true, d.query);
      CoveredByOneMore(m.rules, RecordedRule(ans, q).value, false, d.query);
    }
  }

  lemma RecordedColour(ans: Answer, q: Query)
    requires RecordedRule(ans, q).Some?
    ensures RecordedRule(ans, q).value.allow == Allows(ans)
  {
  }

  lemma RepinDecidesTheSame(m: Meaning, file: string, exe: Option<string>, ans: Answer, sha: Option<string>, q: Query)
    ensures var m' := Repin(m, file, exe, ans, sha).0; Decide(m', q) == Decide(m, q) && m'.rules == m.rules && m'.dflt == m.dflt
  {
    hide Line, DestHit, HostHit, ScopedDestHit, ScopedHostHit;
  }

  function AskedOf(p: Pending): Query {
    Query(p.exe, p.dst, p.host, p.dport)
  }

  lemma AnswerOvertakes(net: AddrSyntax, s: Loop, which: nat, ans: Answer, sha: Option<string>, note: string, d: Settled)
    requires which < |s.prompts| && Holds(s.pol, d)
    ensures Holds(Answered(net, s, which, ans, sha, note).pol, d) <==> !Overtakes(s.pol, ans, AskedOf(s.prompts[which]), d)
  {
    var p := s.prompts[which];
    var (m, file) := Repin(s.pol, s.disk.text, p.exe, ans, sha);
    RepinDecidesTheSame(s.pol, s.disk.text, p.exe, ans, sha, d.query);
    hide Record, Repin, Decide, KeyOf, RecordedRule, Matches, Covered;
    RecordOvertakes(net, m, file, ans, AskedOf(p), note, d);
  }

  // ---- remembered by flow ----

  /** Every remembered verdict is the one the policy would give now. */
  ghost predicate Agrees(s: Loop) {
    forall f :: f in s.decided ==> Holds(s.pol, s.decided[f])
  }

  /** No question in flight is remembered as if it were settled. */
  predicate NeverAsk(s: Loop) {
    forall f :: f in s.decided ==> s.decided[f].verdict != Ask
  }

  /** Every remembered deny is still a deny. */
  ghost predicate DeniesStand(s: Loop) {
    forall f :: f in s.decided && s.decided[f].verdict == Deny ==> Decide(s.pol, s.decided[f].query) == Deny
  }

  /** A judged packet of a flow that is not remembered, whose question visibility
      answers for itself. */
  predicate Learns(s: Loop, seen: Seen, exe: Option<string>, host: Option<string>, actual: Option<string>) {
    && s.mode == Visibility && Judged(seen) && seen.flow !in s.decided
    && Judge(s.pol, QueryFor(seen.flow, exe, host), actual) == Ask
  }

  /** What an event records, if anything. */
  function RecordedBy(s: Loop, e: Event): Option<(Answer, Query)>
    requires Possible(s, e)
  {
    match e
    case AnswerDrained(which, ans, _, _) => Some((ans, AskedOf(s.prompts[which])))
    case PacketSeen(seen, exe, host, actual, _) =>
      if Learns(s, seen, exe, host, actual) then Some((AllowConn, QueryFor(seen.flow, exe, host))) else None
    case _ => None
  }

  ghost predicate OvertakesSome(s: Loop, e: Event)
    requires Possible(s, e)
  {
    var r := RecordedBy(s, e);
    r.Some? && exists f :: f in s.decided && Overtakes(s.pol, r.value.0, r.value.1, s.decided[f])
  }

  lemma AnswerKeepsDecided(net: AddrSyntax, s: Loop, which: nat, ans: Answer, sha: Option<string>, note: string)
    requires which < |s.prompts|
    ensures var u := Answered(net, s, which, ans, sha, note);
            u.decided == s.decided && u.pushed == s.pushed && u.kern == s.kern && u.mode == s.mode
  {
    hide Record, Repin, KeyOf;
  }

  lemma AnswerStepAgrees(net: AddrSyntax, s: Loop, which: nat, ans: Answer, sha: Option<string>, note: string)
    requires which < |s.prompts| && Agrees(s)
    ensures Agrees(Answered(net, s, which, ans, sha, note)) <==>
              forall f :: f in s.decided ==> !Overtakes(s.pol, ans, AskedOf(s.prompts[which]), s.decided[f])
  {
    AnswerKeepsDecided(net, s, which, ans, sha, note);
    hide Answered, Holds, Overtakes, AskedOf;
    forall f | f in s.decided
      ensures Holds(Answered(net, s, which, ans, sha, note).pol, s.decided[f])
              <==> !Overtakes(s.pol, ans, AskedOf(s.prompts[which]), s.decided[f])
    {
      AnswerOvertakes(net, s, which, ans, sha, note, s.decided[f]);
    }
  }

  lemma RememberAdds(s: Loop, flow: FlowKey, q: Query, v: Verdict)
    ensures var u := Remember(s, flow, q, v);
            && u == s.(decided := u.decided)
            && forall f :: f in u.decided && !(f in s.decided && u.decided[f] == s.decided[f]) ==> v != Ask && u.decided[f] == Settled(q, v)
  {
  }

  lemma PushingPushes(s: Loop, flow: FlowKey, q: Query, v: Verdict)
    ensures var u := Pushing(s, flow, q, v);
            && u == s.(pushed := u.pushed)
            && forall k :: k in u.pushed && !(k in s.pushed && u.pushed[k] == s.pushed[k]) ==>
                 v != Ask && s.mode == Enforcement && s.kern == Some(k.handle) && u.pushed[k] == Settled(q, v)
  {
  }

  /** Nothing stands in the first that does not in the second. */
  ghost predicate PartOf(u: map<PushKey, Settled>, s: map<PushKey, Settled>) {
    forall k :: k in u ==> k in s && u[k] == s[k]
  }

  ghost predicate NoneAtHand(s: Loop) {
    forall k :: k in s.pushed ==> s.kern != Some(k.handle)
  }

  /** What is new among the remembered and the pushed is the policy's own, and
      pushed only in enforcement. */
  ghost predicate AddsOwn(s: Loop, u: Loop) {
    && u.pol == s.pol && u.mode == s.mode && u.kern == s.kern
    && (forall f :: f in u.decided && !(f in s.decided && u.decided[f] == s.decided[f]) ==> Holds(s.pol, u.decided[f]))
    && (forall k :: k in u.pushed && !(k in s.pushed && u.pushed[k] == s.pushed[k]) ==>
          s.mode == Enforcement && Holds(s.pol, u.pushed[k]))
  }

  lemma SettlingAddsOwn(s: Loop, flow: FlowKey, q: Query, v: Verdict)
    requires v == Ask || v == Decide(s.pol, q)
    ensures AddsOwn(s, Pushing(Remember(s, flow, q, v), flow, q, v))
  {
    var r := Remember(s, flow, q, v);
    RememberAdds(s, flow, q, v);
    PushingPushes(r, flow, q, v);
    hide Decide, Remember, Pushing;
  }

  lemma AskingAddsOwn(s: Loop, key: Question, p: Pending)
    ensures AddsOwn(s, Raise(s, key, p))
  {
    hide Holds;
  }

  lemma NothingAddsOwn(s: Loop)
    ensures AddsOwn(s, s)
  {
    hide Holds;
  }

  /** A packet either learns, or adds only the policy's own. */
  lemma PacketCases(net: AddrSyntax, s: Loop, seen: Seen, exe: Option<string>, host: Option<string>, actual: Option<string>, note: string)
    ensures var u := Packet(net, s, seen, exe, host, actual, note);
            if Learns(s, seen, exe, host, actual) then
              u == s.(pol := u.pol, disk := u.disk, mark := u.mark)
              && u.pol == Record(net, s.pol, s.disk.text, AllowConn, QueryFor(seen.flow, exe, host), note).0
            else AddsOwn(s, u)
  {
    NothingAddsOwn(s);
    if Judged(seen) {
      var q := QueryFor(seen.flow, exe, host);
      var v := Judge(s.pol, q, actual);
      assert v != Ask ==> v == Decide(s.pol, q);
      SettlingAddsOwn(s, seen.flow, q, v);
      AskingAddsOwn(s, QuestionOf(net, q), PendingFor(q));
    }
    hide Record, Decide, Judge, QuestionOf, PendingFor, Remember, Pushing, QueryFor, Judged, AddsOwn, Raise;
  }

  lemma PacketStepAgrees(net: AddrSyntax, s: Loop, seen: Seen, exe: Option<string>, host: Option<string>, actual: Option<string>, note: string)
    requires Agrees(s)
    ensures Agrees(Packet(net, s, seen, exe, host, actual, note)) <==>
              !(Learns(s, seen, exe, host, actual) &&
                exists f :: f in s.decided && Overtakes(s.pol, AllowConn, QueryFor(seen.flow, exe, host), s.decided[f]))
  {
    PacketCases(net, s, seen, exe, host, actual, note);
    if Learns(s, seen, exe, host, actual) {
      var q := QueryFor(seen.flow, exe, host);
      hide Packet, Holds, Overtakes, Record, QueryFor;
      forall f | f in s.decided
        ensures Holds(Record(net, s.pol, s.disk.text, AllowConn, q, note).0, s.decided[f]) <==> !Overtakes(s.pol, AllowConn, q, s.decided[f])
      {
        RecordOvertakes(net, s.pol, s.disk.text, AllowConn, q, note, s.decided[f]);
      }
    } else {
      hide Packet, Holds, Learns;
    }
  }

  lemma CheckForgetsNothing(s: Loop, dead: bool, reopened: Option<nat>)
    ensures var u := CheckHandle(s, dead, reopened); u.decided == s.decided && u.pol == s.pol && u.mode == s.mode
    ensures PartOf(CheckHandle(s, dead, reopened).pushed, s.pushed)
    ensures var u := CheckHandle(s, dead, reopened);
            u.kern == s.kern || NoneAtHand(u)
  {
    hide AttributionOf;
  }

  lemma ReloadForgets(net: AddrSyntax, s: Loop, fallback: Mode, adopted: Option<nat>)
    ensures var u := Reload(net, s, fallback, adopted);
            u.decided == map[] && NoneAtHand(u)
  {
    hide Load, AllWaiting, ModeOf, AttributionOf;
  }

  lemma ReconcileForgetsNothing(s: Loop, readerOpens: bool)
    ensures var u := Reconcile(s, readerOpens);
            u.decided == s.decided && u.pol == s.pol && u.pushed == s.pushed && u.kern == s.kern && u.mode == s.mode
  {
    hide AllWaiting;
  }

  /** A tick forgets all or nothing. What was pushed to the handle at hand outlasts
      it only if handle, policy and mode stay. */
  lemma TickForgets(net: AddrSyntax, fallback: Mode, s: Loop, e: Event)
    requires e.Ticked? && Possible(s, e)
    ensures var u := After(net, fallback, s, e);
            && (u.decided == map[] || (u.decided == s.decided && u.pol == s.pol))
            && ((u.kern == s.kern && u.pol == s.pol && u.mode == s.mode && PartOf(u.pushed, s.pushed)) || NoneAtHand(u))
  {
    var s1 := CheckHandle(s, e.dead, e.reopened);
    CheckForgetsNothing(s, e.dead, e.reopened);
    hide CheckHandle, Reload, Reconcile;
    if Stale(s1) {
      ReloadForgets(net, s1, fallback, e.adopted);
      ReconcileForgetsNothing(Reload(net, s1, fallback, e.adopted), e.readerOpens);
    } else {
      ReconcileForgetsNothing(s1, e.readerOpens);
    }
  }

  lemma UpcallKeepsVerdicts(net: AddrSyntax, s: Loop, t: Ticket, path: string, dst: IpAddr, host: Option<string>, dport: Port, actual: Option<string>)
    ensures var u := Missed(net, s, t, path, dst, host, dport, actual);
            u.decided == s.decided && u.pol == s.pol && u.pushed == s.pushed && u.kern == s.kern && u.mode == s.mode
  {
    var s1 := s.(taken := s.taken + {t});
    TellKeepsTheRest(s1, [t], true);
    TellKeepsTheRest(s1, [t], false);
    hide Judge, QuestionOf, PendingFor, Tell;
  }

  /** A step sets the policy against a remembered verdict if and only if it records
      an answer that overtakes one. */
  lemma StepAgrees(net: AddrSyntax, fallback: Mode, s: Loop, e: Event)
    requires Possible(s, e) && Agrees(s)
    ensures Agrees(After(net, fallback, s, e)) <==> !OvertakesSome(s, e)
  {
    match e {
      case AnswerDrained(which, ans, sha, note) =>
        hide Answered, Holds, Overtakes;
        AnswerStepAgrees(net, s, which, ans, sha, note);
      case UpcallDrained(t, path, dst, host, dport, actual) =>
        hide Missed, Holds;
        UpcallKeepsVerdicts(net, s, t, path, dst, host, dport, actual);
      case PacketSeen(seen, exe, host, actual, note) =>
        hide Packet, Holds, Overtakes, Learns, QueryFor;
        PacketStepAgrees(net, s, seen, exe, host, actual, note);
      case Ticked(_, _, _, _) =>
        hide Tick, Holds;
        TickForgets(net, fallback, s, e);
      case Edited(_) =>
        hide Decide;
    }
  }

  /** Over any run, remembered verdicts are the policy's own as long as no record
      overtakes one; and the first record that does puts them apart. */
  lemma {:induction false} RememberedVerdictsStand(net: AddrSyntax, fallback: Mode, text: string, handle: Option<nat>,
                                                   es: seq<Event>, ss: seq<Loop>, n: nat)
    requires Runs(net, fallback, text, handle, es, ss) && n < |ss|
    requires forall i :: 0 <= i < n ==> Possible(ss[i], es[i]) && !OvertakesSome(ss[i], es[i])
    ensures Agrees(ss[n])
    ensures n < |es| ==> (Agrees(ss[n + 1]) <==> !OvertakesSome(ss[n], es[n]))
  {
    hide After, Possible, Load, OvertakesSome, Holds;
    if n > 0 {
      RememberedVerdictsStand(net, fallback, text, handle, es, ss, n - 1);
    }
    assert n == 0 ==> ss[n].decided == map[];
    if n < |es| {
      hide Agrees, Start;
      StepAgrees(net, fallback, ss[n], es[n]);
    }
  }

  lemma DenyStands(net: AddrSyntax, m: Meaning, text: string, ans: Answer, q: Query, note: string, q2: Query)
    requires m.dflt != Deny && Decide(m, q2) == Deny
    ensures Decide(Record(net, m, text, ans, q, note).0, q2) == Deny
  {
    RecordOvertakes(net, m, text, ans, q, note, Settled(q2, Deny));
    DecideIsDeclarative(m, q2);
    hide Decide, Record, Matches, Covered;
  }

  lemma DeniesStandStep(net: AddrSyntax, fallback: Mode, s: Loop, e: Event)
    requires Possible(s, e) && s.pol.dflt != Deny && DeniesStand(s)
    ensures DeniesStand(After(net, fallback, s, e))
  {
    match e {
      case AnswerDrained(which, ans, sha, note) =>
        AnswerKeepsDecided(net, s, which, ans, sha, note);
        var p := s.prompts[which];
        var (m, file) := Repin(s.pol, s.disk.text, p.exe, ans, sha);
        forall f | f in s.decided && s.decided[f].verdict == Deny
          ensures Decide(Answered(net, s, which, ans, sha, note).pol, s.decided[f].query) == Deny
        {
          RepinDecidesTheSame(s.pol, s.disk.text, p.exe, ans, sha, s.decided[f].query);
          hide Record, Repin, Decide, KeyOf;
          DenyStands(net, m, file, ans, AskedOf(p), note, s.decided[f].query);
        }
        hide Answered, Decide;
      case UpcallDrained(t, path, dst, host, dport, actual) =>
        hide Missed, Decide;
        UpcallKeepsVerdicts(net, s, t, path, dst, host, dport, actual);
      case PacketSeen(seen, exe, host, actual, note) =>
        PacketCases(net, s, seen, exe, host, actual, note);
        hide Packet, Decide, Record, Learns, QueryFor;
        if Learns(s, seen, exe, host, actual) {
          forall f | f in s.decided && s.decided[f].verdict == Deny
            ensures Decide(Packet(net, s, seen, exe, host, actual, note).pol, s.decided[f].query) == Deny
          {
            DenyStands(net, s.pol, s.disk.text, AllowConn, QueryFor(seen.flow, exe, host), note, s.decided[f].query);
          }
        }
      case Ticked(_, _, _, _) =>
        hide Tick, Decide;
        TickForgets(net, fallback, s, e);
      case Edited(_) =>
        hide Decide;
    }
  }

  /** While the policies of a run do not deny by default, a remembered deny stands
      whatever is answered. */
  lemma {:induction false} RememberedDeniesStand(net: AddrSyntax, fallback: Mode, text: string, handle: Option<nat>,
                                                 es: seq<Event>, ss: seq<Loop>, n: nat)
    requires Runs(net, fallback, text, handle, es, ss) && n < |ss|
    requires forall i :: 0 <= i < n ==> ss[i].pol.dflt != Deny
    ensures DeniesStand(ss[n])
  {
    hide After, Possible, Decide, Load;
    if n > 0 {
      RememberedDeniesStand(net, fallback, text, handle, es, ss, n - 1);
      hide DeniesStand, Start;
      DeniesStandStep(net, fallback, ss[n - 1], es[n - 1]);
    }
  }

  lemma NeverAskStep(net: AddrSyntax, fallback: Mode, s: Loop, e: Event)
    requires Possible(s, e) && NeverAsk(s)
    ensures NeverAsk(After(net, fallback, s, e))
  {
    match e {
      case AnswerDrained(which, ans, sha, note) =>
        hide Answered;
        AnswerKeepsDecided(net, s, which, ans, sha, note);
      case UpcallDrained(t, path, dst, host, dport, actual) =>
        hide Missed;
        UpcallKeepsVerdicts(net, s, t, path, dst, host, dport, actual);
      case PacketSeen(seen, exe, host, actual, note) =>
        PacketCases(net, s, seen, exe, host, actual, note);
        hide Packet, Record, Learns, QueryFor, Decide;
      case Ticked(_, _, _, _) =>
        hide Tick;
        TickForgets(net, fallback, s, e);
      case Edited(_) =>
        hide Decide;
    }
  }

  lemma {:induction false} NeverRemembersAQuestion(net: AddrSyntax, fallback: Mode, text: string, handle: Option<nat>,
                                                   es: seq<Event>, ss: seq<Loop>, n: nat)
    requires Runs(net, fallback, text, handle, es, ss) && n < |ss|
    ensures NeverAsk(ss[n])
  {
    hide After, Possible, Load;
    if n > 0 {
      NeverRemembersAQuestion(net, fallback, text, handle, es, ss, n - 1);
      hide NeverAsk, Start;
      NeverAskStep(net, fallback, ss[n - 1], es[n - 1]);
    }
  }

  // ---- pushed to the kernel ----

  /** Every verdict standing in the module at hand is the one the policy would give now. */
  ghost predicate PushesAgree(s: Loop) {
    forall k :: k in s.pushed && s.kern == Some(k.handle) ==> Holds(s.pol, s.pushed[k])
  }

  ghost predicate OvertakesPush(s: Loop, e: Event)
    requires Possible(s, e)
  {
    var r := RecordedBy(s, e);
    r.Some? && exists k :: k in s.pushed && s.kern == Some(k.handle) && Overtakes(s.pol, r.value.0, r.value.1, s.pushed[k])
  }

  /** A step sets the policy against a verdict pushed to the module at hand if and
      only if it records an answer that overtakes one. */
  lemma StepKeepsPushes(net: AddrSyntax, fallback: Mode, s: Loop, e: Event)
    requires Possible(s, e) && PushesAgree(s)
    ensures PushesAgree(After(net, fallback, s, e)) <==> !OvertakesPush(s, e)
  {
    var u := After(net, fallback, s, e);
    match e {
      case AnswerDrained(which, ans, sha, note) =>
        AnswerKeepsDecided(net, s, which, ans, sha, note);
        hide Answered, Holds, Overtakes, AskedOf;
        forall k | k in s.pushed && s.kern == Some(k.handle)
          ensures Holds(u.pol, s.pushed[k]) <==> !Overtakes(s.pol, ans, AskedOf(s.prompts[which]), s.pushed[k])
        {
          AnswerOvertakes(net, s, which, ans, sha, note, s.pushed[k]);
        }
      case UpcallDrained(t, path, dst, host, dport, actual) =>
        hide Missed, Holds;
        UpcallKeepsVerdicts(net, s, t, path, dst, host, dport, actual);
      case PacketSeen(seen, exe, host, actual, note) =>
        PacketCases(net, s, seen, exe, host, actual, note);
        if Learns(s, seen, exe, host, actual) {
          var q := QueryFor(seen.flow, exe, host);
          hide Packet, Holds, Overtakes, Record, QueryFor;
          forall k | k in s.pushed && s.kern == Some(k.handle)
            ensures Holds(u.pol, s.pushed[k]) <==> !Overtakes(s.pol, AllowConn, q, s.pushed[k])
          {
            RecordOvertakes(net, s.pol, s.disk.text, AllowConn, q, note, s.pushed[k]);
          }
        } else {
          hide Packet, Holds, Learns;
        }
      case Ticked(_, _, _, _) =>
        hide Tick, Holds;
        TickForgets(net, fallback, s, e);
      case Edited(_) =>
        hide Decide;
    }
  }

  /** Visibility leaves nothing pushed in the module at hand. */
  ghost predicate QuietInVisibility(s: Loop) {
    s.mode == Visibility ==> NoneAtHand(s)
  }

  lemma QuietStep(net: AddrSyntax, fallback: Mode, s: Loop, e: Event)
    requires Possible(s, e) && QuietInVisibility(s)
    ensures QuietInVisibility(After(net, fallback, s, e))
  {
    match e {
      case AnswerDrained(which, ans, sha, note) =>
        hide Answered;
        AnswerKeepsDecided(net, s, which, ans, sha, note);
      case UpcallDrained(t, path, dst, host, dport, actual) =>
        hide Missed;
        UpcallKeepsVerdicts(net, s, t, path, dst, host, dport, actual);
      case PacketSeen(seen, exe, host, actual, note) =>
        PacketCases(net, s, seen, exe, host, actual, note);
        hide Packet, Record, Learns, QueryFor, Decide;
      case Ticked(_, _, _, _) =>
        hide Tick;
        TickForgets(net, fallback, s, e);
      case Edited(_) =>
        hide Decide;
    }
  }

  /** Over any run, what stands pushed in the module at hand is the policy's own as
      long as no record overtakes it, whatever reloads, reconnects and switches of
      mode and attribution come between; and in visibility nothing stands. */
  lemma {:induction false} PushedVerdictsStand(net: AddrSyntax, fallback: Mode, text: string, handle: Option<nat>,
                                               es: seq<Event>, ss: seq<Loop>, n: nat)
    requires Runs(net, fallback, text, handle, es, ss) && n < |ss|
    ensures QuietInVisibility(ss[n])
    ensures (forall i :: 0 <= i < n ==> Possible(ss[i], es[i]) && !OvertakesPush(ss[i], es[i])) ==> PushesAgree(ss[n])
  {
    hide After, Possible, Load, OvertakesPush, Holds;
    if n > 0 {
      PushedVerdictsStand(net, fallback, text, handle, es, ss, n - 1);
      hide PushesAgree, QuietInVisibility, Start;
      QuietStep(net, fallback, ss[n - 1], es[n - 1]);
      if PushesAgree(ss[n - 1]) {
        StepKeepsPushes(net, fallback, ss[n - 1], es[n - 1]);
      }
    }
  }

  // ---- the fate of a packet ----

  function FateFor(v: Verdict): Fate {
    match v
    case Allow => Reinject
    case Deny => Refuse
    case Ask => Hold
  }

  /** In enforcement a judged packet meets the verdict its binary, name and port
      would get now if and only if its flow is not remembered, or remembered with
      that verdict; visibility stops nothing, and what is not judged passes. */
  lemma FateIsTheVerdict(s: Loop, seen: Seen, exe: Option<string>, host: Option<string>, actual: Option<string>)
    requires NeverAsk(s)
    ensures if s.mode == Visibility || !Judged(seen) then FateOf(s, seen, exe, host, actual) == Reinject
            else
              var v := Judge(s.pol, QueryFor(seen.flow, exe, host), actual);
              FateOf(s, seen, exe, host, actual) == FateFor(v)
              <==> (seen.flow in s.decided ==> s.decided[seen.flow].verdict == v)
  {
    hide Judge;
  }

  /** Over any run in which no record has overtaken a remembered verdict: a judged
      packet in enforcement meets the policy's present verdict if and only if its
      flow is not remembered, or what the policy says of the packet that settled
      the flow is what it says of this one. */
  lemma FateOverRuns(net: AddrSyntax, fallback: Mode, text: string, handle: Option<nat>, es: seq<Event>, ss: seq<Loop>, n: nat,
                     seen: Seen, exe: Option<string>, host: Option<string>, actual: Option<string>)
    requires Runs(net, fallback, text, handle, es, ss) && n < |ss|
    requires forall i :: 0 <= i < n ==> Possible(ss[i], es[i]) && !OvertakesSome(ss[i], es[i])
    requires ss[n].mode == Enforcement && Judged(seen)
    ensures var s := ss[n];
            var v := Judge(s.pol, QueryFor(seen.flow, exe, host), actual);
            FateOf(s, seen, exe, host, actual) == FateFor(v)
            <==> (seen.flow in s.decided ==> Decide(s.pol, s.decided[seen.flow].query) == v)
  {
    RememberedVerdictsStand(net, fallback, text, handle, es, ss, n);
    NeverRemembersAQuestion(net, fallback, text, handle, es, ss, n);
    FateIsTheVerdict(ss[n], seen, exe, host, actual);
    hide Judge, Decide, FateOf, Runs, NeverAsk;
  }

  /** Another binary on a remembered flow: it passes on the first one's allow though
      the policy denies it. */
  lemma AnotherBinaryPasses(net: AddrSyntax, s: Loop, seen: Seen, exe: string, other: string, actual: Option<string>, note: string)
    requires s.mode == Enforcement && Judged(seen) && seen.flow !in s.decided
    requires Judge(s.pol, QueryFor(seen.flow, Some(exe), None), actual) == Allow
    requires Judge(s.pol, QueryFor(seen.flow, Some(other), None), actual) == Deny
    ensures var u := Packet(net, s, seen, Some(exe), None, actual, note);
            && (Agrees(s) ==> Agrees(u)) && Judge(u.pol, QueryFor(seen.flow, Some(other), None), actual) == Deny
            && FateOf(u, seen, Some(other), None, actual) == Reinject
  {
    PacketCases(net, s, seen, Some(exe), None, actual, note);
    hide Judge, Holds;
  }

  /** A binary replaced after its flow was remembered: it passes though its rules no
      longer count. */
  lemma ChangedBinaryPasses(net: AddrSyntax, s: Loop, seen: Seen, exe: string, was: Option<string>, now: Option<string>, note: string)
    requires s.mode == Enforcement && Judged(seen) && seen.flow !in s.decided
    requires Judge(s.pol, QueryFor(seen.flow, Some(exe), None), was) == Allow && Changed(s.pol, Some(exe), now)
    ensures var u := Packet(net, s, seen, Some(exe), None, was, note);
            && (Agrees(s) ==> Agrees(u)) && Judge(u.pol, QueryFor(seen.flow, Some(exe), None), now) == Ask
            && FateOf(u, seen, Some(exe), None, now) == Reinject
  {
    PacketCases(net, s, seen, Some(exe), None, was, note);
    hide Decide, Holds;
  }

  // ---- what an answer settles ----

  /** A flow that visibility learns is allowed from then on. */
  lemma LearningSettles(net: AddrSyntax, s: Loop, seen: Seen, exe: Option<string>, host: Option<string>, actual: Option<string>, note: string)
    requires Learns(s, seen, exe, host, actual)
    ensures var u, q := Packet(net, s, seen, exe, host, actual, note), QueryFor(seen.flow, exe, host);
            Decide(s.pol, q) == Ask ==> Decide(u.pol, q) == Allow
  {
    PacketCases(net, s, seen, exe, host, actual, note);
    var q := QueryFor(seen.flow, exe, host);
    hide Packet, Decide, Record, Learns, QueryFor;
    if Decide(s.pol, q) == Ask {
      RecordSettlesTheQuestion(net, s.pol, s.disk.text, AllowConn, q, note);
    }
  }

  /** An answer that can be recorded settles the question its prompt was raised for. */
  lemma AnswerSettles(net: AddrSyntax, s: Loop, which: nat, ans: Answer, sha: Option<string>, note: string)
    requires which < |s.prompts| && RecordedRule(ans, AskedOf(s.prompts[which])).Some?
    requires Decide(s.pol, AskedOf(s.prompts[which])) == Ask
    ensures Decide(Answered(net, s, which, ans, sha, note).pol, AskedOf(s.prompts[which])) == if Allows(ans) then Allow else Deny
  {
    var p := s.prompts[which];
    var q := AskedOf(p);
    var (m, file) := Repin(s.pol, s.disk.text, p.exe, ans, sha);
    RepinDecidesTheSame(s.pol, s.disk.text, p.exe, ans, sha, q);
    hide Decide, Record, Repin, KeyOf, RecordedRule;
    RecordSettlesTheQuestion(net, m, file, ans, q, note);
  }
}
