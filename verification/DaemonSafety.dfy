/** What every turn of the daemon's loop keeps: one prompt per question, no kernel
    request lost or answered twice, and UDP governed by exactly one path.
    Source: src/main.rs, lines 476-697 and 833-1005. */
module DaemonSafety {
  import opened Options
  import opened Text
  import opened Targets
  import opened Policy
  import opened DaemonLoop

  datatype Event =
    | AnswerDrained(which: nat, ans: Answer, sha: Option<string>, note: string)
    | UpcallDrained(t: Ticket, path: string, dst: IpAddr, host: Option<string>, dport: Port, actual: Option<string>)
    | PacketSeen(seen: Seen, exe: Option<string>, host: Option<string>, actual: Option<string>, note: string)
    | Ticked(dead: bool, reopened: Option<nat>, adopted: Option<nat>, readerOpens: bool)
    | Edited(text: string)

  /** What the world may do: answers come for prompts on screen, no request is
      delivered twice, and only a loaded module's device opens. */
  predicate Possible(s: Loop, e: Event) {
    match e
    case AnswerDrained(which, _, _, _) => which < |s.prompts|
    case UpcallDrained(t, _, _, _, _, _) => t !in s.taken
    case PacketSeen(_, _, _, _, _) => true
    case Ticked(dead, reopened, adopted, _) =>
      var gone := s.unloaded + if dead && s.kern.Some? then {s.kern.value} else {};
      && (reopened.Some? ==> reopened.value !in gone)
      && (adopted.Some? ==> adopted.value !in gone)
    case Edited(_) => true
  }

  function After(net: AddrSyntax, fallback: Mode, s: Loop, e: Event): Loop
    requires Possible(s, e)
  {
    match e
    case AnswerDrained(which, ans, sha, note) => Answered(net, s, which, ans, sha, note)
    case UpcallDrained(t, path, dst, host, dport, actual) => Missed(net, s, t, path, dst, host, dport, actual)
    case PacketSeen(seen, exe, host, actual, note) => Packet(net, s, seen, exe, host, actual, note)
    case Ticked(dead, reopened, adopted, readerOpens) =>
      Tick(net, s, fallback, dead, reopened, adopted, readerOpens)
    case Edited(text) => Edit(s, text)
  }

  /** A history of the loop from its start, one state a step of a turn or an edit of the file. */
  ghost predicate Runs(net: AddrSyntax, fallback: Mode, text: string, handle: Option<nat>, es: seq<Event>, ss: seq<Loop>) {
    && |ss| == |es| + 1 && ss[0] == Start(net, fallback, text, handle)
    && forall i :: 0 <= i < |es| ==> Possible(ss[i], es[i]) && ss[i + 1] == After(net, fallback, ss[i], es[i])
  }

  // ---- one prompt per question ----

  /** The questions in flight are exactly those on screen, each there once, and
      nothing waits on a question nobody was asked. */
  ghost predicate OneEach(net: AddrSyntax, asking: set<Question>, waiting: map<Question, seq<Ticket>>, prompts: seq<Pending>) {
    && (forall i :: 0 <= i < |prompts| ==> KeyOf(net, prompts[i]) in asking)
    && (forall k :: k in asking ==> exists i :: 0 <= i < |prompts| && KeyOf(net, prompts[i]) == k)
    && (forall i, j :: 0 <= i < j < |prompts| ==> KeyOf(net, prompts[i]) != KeyOf(net, prompts[j]))
    && waiting.Keys <= asking
  }

  ghost predicate PromptsInv(net: AddrSyntax, s: Loop) {
    OneEach(net, s.asking, s.waiting, s.prompts)
  }

  /** The answer to a prompt finds the question it was raised under. */
  lemma PromptCarriesItsQuestion(net: AddrSyntax, q: Query)
    ensures KeyOf(net, PendingFor(q)) == QuestionOf(net, q)
  {
  }

  lemma OneEachRaised(net: AddrSyntax, s: Loop, q: Query)
    requires PromptsInv(net, s)
    ensures PromptsInv(net, Raise(s, QuestionOf(net, q), PendingFor(q)))
  {
    var key, p := QuestionOf(net, q), PendingFor(q);
    PromptCarriesItsQuestion(net, q);
    hide KeyOf, QuestionOf, PendingFor;
    if key !in s.asking {
      var ps := s.prompts + [p];
      assert ps[|s.prompts|] == p;
      forall k | k in s.asking + {key} ensures exists i :: 0 <= i < |ps| && KeyOf(net, ps[i]) == k {
        if k in s.asking {
          var i :| 0 <= i < |s.prompts| && KeyOf(net, s.prompts[i]) == k;
          assert ps[i] == s.prompts[i];
        }
      }
    }
  }

  lemma OneEachAnswered(net: AddrSyntax, asking: set<Question>, waiting: map<Question, seq<Ticket>>, ps: seq<Pending>, which: nat)
    requires OneEach(net, asking, waiting, ps) && which < |ps|
    ensures var key := KeyOf(net, ps[which]);
            OneEach(net, asking - {key}, waiting - {key}, ps[..which] + ps[which + 1..])
  {
    hide KeyOf;
    var key := KeyOf(net, ps[which]);
    var rest := ps[..which] + ps[which + 1..];
    assert forall i :: 0 <= i < |rest| ==> rest[i] == ps[if i < which then i else i + 1];
    forall k | k in asking - {key} ensures exists i :: 0 <= i < |rest| && KeyOf(net, rest[i]) == k {
      var i :| 0 <= i < |ps| && KeyOf(net, ps[i]) == k;
      assert rest[if i < which then i else i - 1] == ps[i];
    }
  }

  // ---- every drained request accounted for ----

  ghost predicate Accounted(s: Loop) {
    && s.taken == Answers(s.resolved) + AllWaiting(s.waiting) + s.abandoned
    && Answers(s.resolved) !! AllWaiting(s.waiting) && Answers(s.resolved) !! s.abandoned
    && AllWaiting(s.waiting) !! s.abandoned
    && WaitsOnce(s.waiting) && AnswersOnce(s.resolved)
  }

  function Answers(rs: seq<Resolution>): set<Ticket> {
    set r | r in rs :: r.ticket
  }

  predicate AnswersOnce(rs: seq<Resolution>) {
    forall i, j :: 0 <= i < j < |rs| ==> rs[i].ticket != rs[j].ticket
  }

  predicate Distinct(ts: seq<Ticket>) { forall i, j :: 0 <= i < j < |ts| ==> ts[i] != ts[j] }

  /** No request waits in two places. */
  ghost predicate WaitsOnce(m: map<Question, seq<Ticket>>) {
    && (forall k :: k in m ==> Distinct(m[k]))
    && (forall k, k2, t :: k in m && k2 in m && t in m[k] && t in m[k2] ==> k == k2)
  }

  lemma AllWaitingMeaning(m: map<Question, seq<Ticket>>, t: Ticket)
    ensures t in AllWaiting(m) <==> exists k :: k in m && t in m[k]
  {
    if t in AllWaiting(m) {
      var k, i :| k in m && 0 <= i < |m[k]| && m[k][i] == t;
    }
  }

  lemma WaitingLess(m: map<Question, seq<Ticket>>, key: Question)
    requires WaitsOnce(m) && key in m
    ensures WaitsOnce(m - {key}) && Distinct(m[key])
    ensures AllWaiting(m) == AllWaiting(m - {key}) + Elements(m[key])
    ensures AllWaiting(m - {key}) !! Elements(m[key])
  {
    hide AllWaiting, Distinct;
    var rest := m - {key};
    forall t ensures t in AllWaiting(m) <==> t in AllWaiting(rest) + Elements(m[key])
            ensures t in AllWaiting(rest) ==> t !in Elements(m[key])
    {
      AllWaitingMeaning(m, t);
      AllWaitingMeaning(rest, t);
      if t in AllWaiting(m) {
        var k :| k in m && t in m[k];
        assert k != key ==> k in rest && t in rest[k];
      }
    }
  }

  lemma WaitingMore(m: map<Question, seq<Ticket>>, key: Question, t: Ticket)
    requires WaitsOnce(m) && t !in AllWaiting(m)
    ensures var m' := m[key := (if key in m then m[key] else []) + [t]];
            WaitsOnce(m') && AllWaiting(m') == AllWaiting(m) + {t}
  {
    var m' := m[key := (if key in m then m[key] else []) + [t]];
    forall k | k in m ensures t !in m[k] { AllWaitingMeaning(m, t); }
    hide AllWaiting;
    forall u ensures u in AllWaiting(m') <==> u in AllWaiting(m) + {t} {
      AllWaitingMeaning(m, u);
      AllWaitingMeaning(m', u);
      assert t in m'[key];
      if exists k :: k in m && u in m[k] {
        var k :| k in m && u in m[k];
        assert u in m'[k];
      }
    }
  }

  lemma AnswersMore(rs: seq<Resolution>, h: nat, ts: seq<Ticket>, allow: bool)
    requires AnswersOnce(rs) && Distinct(ts) && Answers(rs) !! Elements(ts)
    ensures AnswersOnce(rs + ResolveAll(h, ts, allow))
    ensures Answers(rs + ResolveAll(h, ts, allow)) == Answers(rs) + Elements(ts)
  {
    var more := ResolveAll(h, ts, allow);
    var all := rs + more;
    forall i, j | 0 <= i < j < |all| ensures all[i].ticket != all[j].ticket {
      if i < |rs| {
        assert all[i].ticket in Answers(rs);
      }
      if j >= |rs| {
        assert all[j].ticket in Elements(ts);
      }
    }
    forall t | t in Elements(ts) ensures t in Answers(all) {
      var i :| 0 <= i < |ts| && ts[i] == t;
      assert all[|rs| + i] == more[i];
      assert more[i] in all;
    }
    assert forall r :: r in all <==> r in rs || r in more;
    forall r | r in more ensures r.ticket in Elements(ts) {
      var i :| 0 <= i < |more| && more[i] == r;
      assert r.ticket == ts[i];
    }
  }

  /** Telling about requests that are in nobody else's hands accounts for them,
      with a kernel to tell or without. */
  lemma TellAccounts(s: Loop, ts: seq<Ticket>, allow: bool)
    requires Distinct(ts) && Elements(ts) !! (Answers(s.resolved) + s.abandoned) && AnswersOnce(s.resolved)
    ensures var u := Tell(s, ts, allow);
            && Answers(u.resolved) + u.abandoned == Answers(s.resolved) + s.abandoned + Elements(ts)
            && AnswersOnce(u.resolved) && u == s.(resolved := u.resolved, abandoned := u.abandoned)
            && (Answers(s.resolved) !! s.abandoned ==> Answers(u.resolved) !! u.abandoned)
  {
    hide Distinct, Elements, Answers, AnswersOnce;
    if s.kern.Some? {
      AnswersMore(s.resolved, s.kern.value, ts, allow);
    }
  }

  lemma AccountedTold(s: Loop, t: Ticket, allow: bool)
    requires Accounted(s) && t !in s.taken
    ensures Accounted(Tell(s.(taken := s.taken + {t}), [t], allow))
  {
    assert Elements([t]) == {t};
    hide Tell, AllWaiting, Answers, AnswersOnce, WaitsOnce, Elements;
    TellAccounts(s.(taken := s.taken + {t}), [t], allow);
  }

  lemma AccountedHeld(net: AddrSyntax, s: Loop, t: Ticket, q: Query)
    requires Accounted(s) && t !in s.taken
    ensures Accounted(Held(net, s.(taken := s.taken + {t}), t, q))
  {
    hide AllWaiting, Answers, AnswersOnce, WaitsOnce, QuestionOf, PendingFor;
    WaitingMore(s.waiting, QuestionOf(net, q), t);
  }

  lemma AccountedClosed(s: Loop, key: Question, allow: bool)
    requires Accounted(s)
    ensures Accounted(Closed(s, key, allow))
  {
    if key in s.waiting {
      hide Tell, AllWaiting, Answers, AnswersOnce, WaitsOnce, Elements, Distinct;
      WaitingLess(s.waiting, key);
      TellAccounts(s, s.waiting[key], allow);
    } else {
      NothingToTell(s, allow);
      assert s.waiting - {key} == s.waiting;
    }
  }

  lemma AccountedTornDown(s: Loop)
    requires Accounted(s)
    ensures Accounted(TearDown(s))
  {
    hide Answers, AnswersOnce, Distinct;
    NothingWaits();
  }

  lemma NothingWaits()
    ensures AllWaiting(map[]) == {} && WaitsOnce(map[])
  {
  }

  // ---- who governs UDP ----

  ghost predicate Governed(fallback: Mode, s: Loop) {
    && s.diverting == !s.upcallOn
    && (s.upcallOn ==> s.kern.Some? && s.mode == Enforcement)
    && (s.kern.Some? ==> AttributionOf(s.pol) == Kernel && s.kern.value !in s.unloaded)
    && s.mode == ModeOf(s.pol, fallback)
    && (forall h :: h in s.hooked ==> h in s.unloaded || (s.upcallOn && s.kern == Some(h)))
  }

  /** Everything but the asking and the accounting is governed the same. */
  predicate SameGoverning(s: Loop, u: Loop) {
    && u.diverting == s.diverting && u.upcallOn == s.upcallOn && u.kern == s.kern && u.mode == s.mode
    && u.unloaded == s.unloaded && u.hooked == s.hooked
    && u.pol.mode == s.pol.mode && u.pol.attribution == s.pol.attribution
  }

  lemma AnsweringGovernsTheSame(net: AddrSyntax, s: Loop, which: nat, ans: Answer, sha: Option<string>, note: string)
    requires which < |s.prompts|
    ensures SameGoverning(s, Answered(net, s, which, ans, sha, note))
  {
    hide KeyOf, Line, RecordedRule, RecordedValue, JoinTarget;
    TellKeepsTheRest(s, WaitingOn(s, KeyOf(net, s.prompts[which])), Allows(ans));
  }

  lemma UpcallGovernsTheSame(net: AddrSyntax, s: Loop, t: Ticket, path: string, dst: IpAddr, host: Option<string>, dport: Port, actual: Option<string>)
    ensures SameGoverning(s, Missed(net, s, t, path, dst, host, dport, actual))
  {
    var s1 := s.(taken := s.taken + {t});
    TellKeepsTheRest(s1, [t], true);
    TellKeepsTheRest(s1, [t], false);
    hide Judge, QuestionOf, PendingFor, Tell;
  }

  lemma PacketGovernsTheSame(net: AddrSyntax, s: Loop, seen: Seen, exe: Option<string>, host: Option<string>,
                             actual: Option<string>, note: string)
    ensures SameGoverning(s, Packet(net, s, seen, exe, host, actual, note))
  {
    hide Judge, Fresh, QueryFor;
    if Judged(seen) && seen.flow !in s.decided {
      FreshGovernsTheSame(net, s, seen.flow, QueryFor(seen.flow, exe, host), actual, note);
    }
  }

  lemma RecordGovernsTheSame(net: AddrSyntax, m: Meaning, text: string, ans: Answer, q: Query, note: string)
    ensures var m' := Record(net, m, text, ans, q, note).0; m'.mode == m.mode && m'.attribution == m.attribution
  {
    hide Line, RecordedRule, RecordedValue;
  }

  lemma FreshGovernsTheSame(net: AddrSyntax, s: Loop, flow: FlowKey, q: Query, actual: Option<string>, note: string)
    ensures SameGoverning(s, Fresh(net, s, flow, q, actual, note))
  {
    RecordGovernsTheSame(net, s.pol, s.disk.text, AllowConn, q, note);
    hide Judge, QuestionOf, PendingFor, Record;
  }

  /** As governed as the middle of a tick is: the upcall may still be on when the
      handle has gone or the mode has changed. */
  ghost predicate HalfGoverned(fallback: Mode, s: Loop) {
    && s.diverting == !s.upcallOn
    && (s.kern.Some? ==> AttributionOf(s.pol) == Kernel && s.kern.value !in s.unloaded)
    && s.mode == ModeOf(s.pol, fallback)
    && (forall h :: h in s.hooked ==> h in s.unloaded || (s.upcallOn && s.kern == Some(h)))
  }

  /** From `s` to `u` the upcall stayed on for the same handle or went with it. */
  predicate NoNewHandle(s: Loop, u: Loop) {
    && (u.upcallOn ==> s.upcallOn && (u.kern == s.kern || u.kern.None?))
    && (s.upcallOn && !u.upcallOn ==> u.kern.None?)
  }

  lemma CheckHalfGoverned(fallback: Mode, s: Loop, dead: bool, reopened: Option<nat>)
    requires Governed(fallback, s) && (reopened.Some? ==> reopened.value !in s.unloaded)
    ensures var u := CheckHandle(s, dead, reopened);
            HalfGoverned(fallback, u) && NoNewHandle(s, u)
            && (s.upcallOn ==> AttributionOf(u.pol) == Kernel)
            && u.unloaded <= s.unloaded + (if dead && s.kern.Some? then {s.kern.value} else {})
  {
  }

  lemma ReloadHalfGoverned(net: AddrSyntax, fallback: Mode, s: Loop, adopted: Option<nat>)
    requires HalfGoverned(fallback, s) && (adopted.Some? ==> adopted.value !in s.unloaded)
    ensures var u := Reload(net, s, fallback, adopted);
            HalfGoverned(fallback, u) && (s.upcallOn && AttributionOf(s.pol) == Kernel ==> NoNewHandle(s, u))
            && (!s.upcallOn ==> !u.upcallOn) && (s.kern.None? && u.upcallOn ==> u.kern.None?)
  {
    hide Load, AllWaiting, ModeOf, Flushed;
  }

  lemma ReconcileGoverns(fallback: Mode, s: Loop, readerOpens: bool)
    requires HalfGoverned(fallback, s)
    ensures Governed(fallback, Reconcile(s, readerOpens))
    ensures var u := Reconcile(s, readerOpens);
            u.kern == s.kern && (u.upcallOn ==> s.kern.Some?)
  {
    hide AllWaiting, ModeOf, AttributionOf;
  }

  lemma GovernedTick(net: AddrSyntax, fallback: Mode, s: Loop, e: Event)
    requires e.Ticked? && Possible(s, e) && Governed(fallback, s)
    ensures Governed(fallback, After(net, fallback, s, e))
    ensures var u := After(net, fallback, s, e); s.upcallOn && u.upcallOn ==> u.kern == s.kern
  {
    var s1 := CheckHandle(s, e.dead, e.reopened);
    var s2 := if Stale(s1) then Reload(net, s1, fallback, e.adopted) else s1;
    CheckHalfGoverned(fallback, s, e.dead, e.reopened);
    hide CheckHandle, Reload, Reconcile, Governed, HalfGoverned, ModeOf, AttributionOf;
    if Stale(s1) {
      ReloadHalfGoverned(net, fallback, s1, e.adopted);
    }
    ReconcileGoverns(fallback, s2, e.readerOpens);
  }

  // ---- the whole loop ----

  ghost predicate Inv(net: AddrSyntax, fallback: Mode, s: Loop) {
    PromptsInv(net, s) && Accounted(s) && Governed(fallback, s)
  }

  lemma StartInv(net: AddrSyntax, fallback: Mode, text: string, handle: Option<nat>)
    ensures Inv(net, fallback, Start(net, fallback, text, handle))
  {
    hide Load;
    NothingWaits();
  }

  lemma AnswerStep(net: AddrSyntax, fallback: Mode, s: Loop, which: nat, ans: Answer, sha: Option<string>, note: string)
    requires Inv(net, fallback, s) && which < |s.prompts|
    ensures Inv(net, fallback, Answered(net, s, which, ans, sha, note))
  {
    hide Record, Repin, OneEach, AllWaiting, Answers, AnswersOnce, WaitsOnce, KeyOf, Closed;
    var key := KeyOf(net, s.prompts[which]);
    OneEachAnswered(net, s.asking, s.waiting, s.prompts, which);
    AccountedClosed(s, key, Allows(ans));
    ClosedKeeps(s, key, Allows(ans));
    AnsweringGovernsTheSame(net, s, which, ans, sha, note);
  }

  lemma ClosedKeeps(s: Loop, key: Question, allow: bool)
    ensures var u := Closed(s, key, allow);
            u.asking == s.asking - {key} && u.waiting == s.waiting - {key} && u.prompts == s.prompts
  {
  }

  lemma UpcallStep(net: AddrSyntax, fallback: Mode, s: Loop, t: Ticket, path: string, dst: IpAddr, host: Option<string>,
                   dport: Port, actual: Option<string>)
    requires Inv(net, fallback, s) && t !in s.taken
    ensures Inv(net, fallback, Missed(net, s, t, path, dst, host, dport, actual))
  {
    hide Judge, KeyOf, AllWaiting, Answers, AnswersOnce, WaitsOnce, QuestionOf, PendingFor, Held, Tell;
    var q := Query(Some(path), dst, host, dport);
    var s1 := s.(taken := s.taken + {t});
    UpcallGovernsTheSame(net, s, t, path, dst, host, dport, actual);
    AccountedTold(s, t, true);
    AccountedTold(s, t, false);
    AccountedHeld(net, s, t, q);
    TellKeepsTheRest(s1, [t], true);
    TellKeepsTheRest(s1, [t], false);
    OneEachHeld(net, s1, t, q);
  }

  lemma OneEachHeld(net: AddrSyntax, s: Loop, t: Ticket, q: Query)
    requires PromptsInv(net, s)
    ensures PromptsInv(net, Held(net, s, t, q))
  {
    hide KeyOf, QuestionOf, PendingFor;
    OneEachRaised(net, s, q);
  }

  lemma PacketStep(net: AddrSyntax, fallback: Mode, s: Loop, seen: Seen, exe: Option<string>, host: Option<string>,
                   actual: Option<string>, note: string)
    requires Inv(net, fallback, s)
    ensures Inv(net, fallback, Packet(net, s, seen, exe, host, actual, note))
  {
    PacketGovernsTheSame(net, s, seen, exe, host, actual, note);
    hide Judge, AllWaiting, Answers, AnswersOnce, WaitsOnce, OneEach, QueryFor, Fresh;
    if Judged(seen) && seen.flow !in s.decided {
      FreshKeeps(net, s, seen.flow, QueryFor(seen.flow, exe, host), actual, note);
    }
  }

  lemma FreshKeeps(net: AddrSyntax, s: Loop, flow: FlowKey, q: Query, actual: Option<string>, note: string)
    requires PromptsInv(net, s) && Accounted(s)
    ensures PromptsInv(net, Fresh(net, s, flow, q, actual, note)) && Accounted(Fresh(net, s, flow, q, actual, note))
  {
    hide Judge, Record, AllWaiting, Answers, AnswersOnce, WaitsOnce, QuestionOf, PendingFor, OneEach;
    OneEachRaised(net, s, q);
  }

  ghost predicate Kept(net: AddrSyntax, s: Loop) {
    PromptsInv(net, s) && Accounted(s)
  }

  lemma TearDownKeeps(net: AddrSyntax, s: Loop)
    requires Kept(net, s)
    ensures Kept(net, TearDown(s))
  {
    AccountedTornDown(s);
    hide Accounted, KeyOf, AllWaiting;
  }

  lemma KeptElsewhere(net: AddrSyntax, s: Loop, u: Loop)
    requires Kept(net, s) && u.asking == s.asking && u.waiting == s.waiting && u.prompts == s.prompts
    requires u.taken == s.taken && u.resolved == s.resolved && u.abandoned == s.abandoned
    ensures Kept(net, u)
  {
    hide OneEach, Answers, AnswersOnce, AllWaiting, WaitsOnce;
  }

  lemma ReloadKeeps(net: AddrSyntax, fallback: Mode, s: Loop, adopted: Option<nat>)
    requires Kept(net, s)
    ensures Kept(net, Reload(net, s, fallback, adopted))
  {
    hide Kept, TearDown, Load, ModeOf, AttributionOf, Flushed;
    var s1 := Loaded(net, s, fallback);
    KeptElsewhere(net, s, s1);
    TearDownKeeps(net, s1);
    var s2 := if AttributionOf(s1.pol) != AttributionOf(s.pol) && s1.upcallOn then TearDown(s1) else s1;
    KeptElsewhere(net, s2, Reload(net, s, fallback, adopted));
  }

  lemma TickKeepsPrompts(net: AddrSyntax, fallback: Mode, s: Loop, e: Event)
    requires e.Ticked? && Possible(s, e) && Kept(net, s)
    ensures Kept(net, After(net, fallback, s, e))
  {
    hide Kept, CheckHandle, Reload, Reconcile;
    var s1 := CheckHandle(s, e.dead, e.reopened);
    CheckKeeps(net, s, e.dead, e.reopened);
    if Stale(s1) {
      ReloadKeeps(net, fallback, s1, e.adopted);
    }
    var s2 := if Stale(s1) then Reload(net, s1, fallback, e.adopted) else s1;
    ReconcileKeeps(net, s2, e.readerOpens);
  }

  lemma CheckKeeps(net: AddrSyntax, s: Loop, dead: bool, reopened: Option<nat>)
    requires Kept(net, s)
    ensures Kept(net, CheckHandle(s, dead, reopened))
  {
    hide Kept, AttributionOf;
    KeptElsewhere(net, s, CheckHandle(s, dead, reopened));
  }

  lemma ReconcileKeeps(net: AddrSyntax, s: Loop, readerOpens: bool)
    requires Kept(net, s)
    ensures Kept(net, Reconcile(s, readerOpens))
  {
    hide Kept, TearDown;
    TearDownKeeps(net, s);
    if Reconcile(s, readerOpens) != TearDown(s) {
      KeptElsewhere(net, s, Reconcile(s, readerOpens));
    }
  }

  lemma InvStep(net: AddrSyntax, fallback: Mode, s: Loop, e: Event)
    requires Inv(net, fallback, s) && Possible(s, e)
    ensures Inv(net, fallback, After(net, fallback, s, e))
  {
    hide Accounted, Governed, PromptsInv, Answered, Missed, Packet, Tick;
    match e {
      case AnswerDrained(which, ans, sha, note) => AnswerStep(net, fallback, s, which, ans, sha, note);
      case UpcallDrained(t, path, dst, host, dport, actual) => UpcallStep(net, fallback, s, t, path, dst, host, dport, actual);
      case PacketSeen(seen, exe, host, actual, note) => PacketStep(net, fallback, s, seen, exe, host, actual, note);
      case Ticked(_, _, _, _) =>
        TickKeepsPrompts(net, fallback, s, e);
        GovernedTick(net, fallback, s, e);
      case Edited(text) => EditKeepsInv(net, fallback, s, text);
    }
  }

  lemma EditKeepsInv(net: AddrSyntax, fallback: Mode, s: Loop, text: string)
    requires Inv(net, fallback, s)
    ensures Inv(net, fallback, Edit(s, text))
  {
    hide OneEach, AllWaiting, Answers, AnswersOnce, WaitsOnce, ModeOf, AttributionOf;
  }

  lemma {:induction false} RunKeepsInv(net: AddrSyntax, fallback: Mode, text: string, handle: Option<nat>,
                                       es: seq<Event>, ss: seq<Loop>, n: nat)
    requires Runs(net, fallback, text, handle, es, ss) && n < |ss|
    ensures Inv(net, fallback, ss[n])
  {
    hide Inv, After, Possible, Start;
    if n == 0 {
      StartInv(net, fallback, text, handle);
    } else {
      RunKeepsInv(net, fallback, text, handle, es, ss, n - 1);
      InvStep(net, fallback, ss[n - 1], es[n - 1]);
    }
  }
}
