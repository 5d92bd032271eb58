/** What the daemon's loop promises over every run: who is asked, what becomes of
    a kernel request, who governs UDP and what a remembered verdict is worth.
    Source: src/main.rs, lines 476-697, 788-805 and 833-1005. */
module DaemonResults {
  import opened Options
  import opened Text
  import opened Targets
  import opened Policy
  import opened DaemonLoop
  import opened DaemonSafety

  // ---- one question, one prompt ----

  /** However many flows and kernel requests ask one question, it is on screen
      once; and there are as many prompts as questions. */
  lemma OnePromptPerQuestion(net: AddrSyntax, fallback: Mode, text: string, handle: Option<nat>,
                             es: seq<Event>, ss: seq<Loop>, n: nat)
    requires Runs(net, fallback, text, handle, es, ss) && n < |ss|
    ensures OneEach(net, ss[n].asking, ss[n].waiting, ss[n].prompts)
    ensures |ss[n].prompts| == |ss[n].asking|
  {
    RunKeepsInv(net, fallback, text, handle, es, ss, n);
    AsManyPrompts(net, ss[n].asking, ss[n].waiting, ss[n].prompts);
  }

  lemma {:induction false} AsManyPrompts(net: AddrSyntax, asking: set<Question>, waiting: map<Question, seq<Ticket>>, ps: seq<Pending>)
    requires OneEach(net, asking, waiting, ps)
    ensures |ps| == |asking|
    decreases |ps|
  {
    hide KeyOf;
    if ps == [] {
      assert asking == {};
    } else {
      OneEachAnswered(net, asking, waiting, ps, 0);
      assert ps[..0] + ps[1..] == ps[1..];
      AsManyPrompts(net, asking - {KeyOf(net, ps[0])}, waiting - {KeyOf(net, ps[0])}, ps[1..]);
    }
  }

  // ---- no request lost, none answered twice ----

  ghost predicate ResolvedOnce(s: Loop, t: Ticket) {
    exists i :: 0 <= i < |s.resolved| && s.resolved[i].ticket == t
                && forall j :: 0 <= j < |s.resolved| && s.resolved[j].ticket == t ==> j == i
  }

  /** It waits on a question that is on screen, and on no other. */
  ghost predicate WaitsOnScreen(net: AddrSyntax, s: Loop, t: Ticket) {
    exists i :: 0 <= i < |s.prompts| && t in WaitingOn(s, KeyOf(net, s.prompts[i]))
                && forall k :: k in s.waiting && t in s.waiting[k] ==> k == KeyOf(net, s.prompts[i])
  }

  /** Every request the daemon took has been answered exactly once, or waits on
      exactly one prompt that is on screen, or was given up when there was no
      kernel to tell; and only one of the three. */
  lemma NoRequestLost(net: AddrSyntax, fallback: Mode, text: string, handle: Option<nat>,
                      es: seq<Event>, ss: seq<Loop>, n: nat, t: Ticket)
    requires Runs(net, fallback, text, handle, es, ss) && n < |ss| && t in ss[n].taken
    ensures var s := ss[n];
            && (ResolvedOnce(s, t) || WaitsOnScreen(net, s, t) || t in s.abandoned)
            && !(ResolvedOnce(s, t) && WaitsOnScreen(net, s, t))
            && !(t in s.abandoned && (ResolvedOnce(s, t) || WaitsOnScreen(net, s, t)))
  {
    hide Runs, KeyOf, Governed;
    RunKeepsInv(net, fallback, text, handle, es, ss, n);
    AnsweredMeaning(ss[n], t);
    WaitingMeaning(net, ss[n], t);
    hide AllWaiting, Answers, ResolvedOnce, WaitsOnScreen, OneEach, WaitsOnce, AnswersOnce;
  }

  lemma AnsweredMeaning(s: Loop, t: Ticket)
    requires Accounted(s)
    ensures t in Answers(s.resolved) <==> ResolvedOnce(s, t)
  {
    hide AllWaiting, WaitsOnce;
    if t in Answers(s.resolved) {
      var r :| r in s.resolved && r.ticket == t;
      var i :| 0 <= i < |s.resolved| && s.resolved[i] == r;
      assert forall j :: 0 <= j < |s.resolved| && s.resolved[j].ticket == t ==> j == i;
    }
  }

  lemma WaitingMeaning(net: AddrSyntax, s: Loop, t: Ticket)
    requires Accounted(s) && PromptsInv(net, s)
    ensures t in AllWaiting(s.waiting) <==> WaitsOnScreen(net, s, t)
  {
    hide Answers, AnswersOnce, KeyOf;
    AllWaitingMeaning(s.waiting, t);
    hide AllWaiting;
    if t in AllWaiting(s.waiting) {
      var k :| k in s.waiting && t in s.waiting[k];
      assert k in s.waiting.Keys && k in s.asking;
      var i :| 0 <= i < |s.prompts| && KeyOf(net, s.prompts[i]) == k;
      assert t in WaitingOn(s, KeyOf(net, s.prompts[i]));
    }
  }

  /** With a handle, the answer to a prompt goes to every request waiting on its
      question and to no other, and is the last word on that question. */
  lemma AnswerReachesEveryWaiter(net: AddrSyntax, fallback: Mode, s: Loop, which: nat, ans: Answer, sha: Option<string>,
                                 note: string, t: Ticket)
    requires Inv(net, fallback, s) && which < |s.prompts| && s.kern.Some?
    ensures var key, u := KeyOf(net, s.prompts[which]), Answered(net, s, which, ans, sha, note);
            && (t in WaitingOn(s, key) ==>
                  Resolution(s.kern.value, t, Allows(ans)) in u.resolved && ResolvedOnce(u, t))
            && (t !in WaitingOn(s, key) && ResolvedOnce(u, t) ==> ResolvedOnce(s, t))
            && key !in u.asking && key !in u.waiting && u.abandoned == s.abandoned
  {
    var key := KeyOf(net, s.prompts[which]);
    var u := Answered(net, s, which, ans, sha, note);
    AnswerStep(net, fallback, s, which, ans, sha, note);
    AnsweredMeaning(s, t);
    AnsweredMeaning(u, t);
    ResolvedByAnswer(net, s, which, ans, sha, note);
    hide Answered, Inv, KeyOf, ResolvedOnce, Answers;
    AnswersGrow(s.resolved, s.kern.value, WaitingOn(s, key), Allows(ans), t);
  }

  lemma AnswersGrow(rs: seq<Resolution>, h: nat, ts: seq<Ticket>, allow: bool, t: Ticket)
    ensures var all := rs + ResolveAll(h, ts, allow);
            && (t in Answers(all) <==> t in Answers(rs) || t in ts)
            && (t in ts ==> Resolution(h, t, allow) in all)
  {
    var more := ResolveAll(h, ts, allow);
    if t in ts {
      var i :| 0 <= i < |ts| && ts[i] == t;
      assert more[i] in rs + more;
    }
    forall r | r in more ensures r.ticket in ts {
      var i :| 0 <= i < |more| && more[i] == r;
    }
    assert forall r :: r in rs + more <==> r in rs || r in more;
  }

  lemma ResolvedByAnswer(net: AddrSyntax, s: Loop, which: nat, ans: Answer, sha: Option<string>, note: string)
    requires which < |s.prompts| && s.kern.Some?
    ensures var key, u := KeyOf(net, s.prompts[which]), Answered(net, s, which, ans, sha, note);
            && u.resolved == s.resolved + ResolveAll(s.kern.value, WaitingOn(s, key), Allows(ans))
            && key !in u.asking && key !in u.waiting && u.abandoned == s.abandoned
  {
    hide Record, Repin, KeyOf;
  }

  /** A request is given up only for want of a handle, or in a tick that leaves
      the upcall off. */
  lemma GivenUpOnlyWithoutAKernel(net: AddrSyntax, fallback: Mode, s: Loop, e: Event)
    requires Inv(net, fallback, s) && Possible(s, e) && After(net, fallback, s, e).abandoned != s.abandoned
    ensures s.kern.None? || (e.Ticked? && s.upcallOn && !After(net, fallback, s, e).upcallOn)
  {
    hide PromptsInv, Accounted, Governed, Answered, Missed, Packet, Tick;
    match e {
      case AnswerDrained(which, ans, sha, note) =>
        if s.kern.Some? {
          ResolvedByAnswer(net, s, which, ans, sha, note);
        }
      case UpcallDrained(t, path, dst, host, dport, actual) =>
        if s.kern.Some? {
          UpcallGivesUp(net, s, t, path, dst, host, dport, actual);
        }
      case PacketSeen(seen, exe, host, actual, note) =>
        PacketGivesUpNothing(net, s, seen, exe, host, actual, note);
      case Ticked(_, _, _, _) =>
        TickGivesUp(net, fallback, s, e);
      case Edited(_) =>
    }
  }

  lemma UpcallGivesUp(net: AddrSyntax, s: Loop, t: Ticket, path: string, dst: IpAddr, host: Option<string>, dport: Port, actual: Option<string>)
    requires s.kern.Some?
    ensures Missed(net, s, t, path, dst, host, dport, actual).abandoned == s.abandoned
  {
    var s1 := s.(taken := s.taken + {t});
    TellsOne(s1, t, true);
    TellsOne(s1, t, false);
    HeldGivesUpNothing(net, s1, t, Query(Some(path), dst, host, dport));
    hide Judge, Tell, Held;
  }

  /** With a handle, telling about one request resolves it and does no more. */
  lemma TellsOne(s: Loop, t: Ticket, allow: bool)
    requires s.kern.Some?
    ensures Tell(s, [t], allow) == s.(resolved := s.resolved + [Resolution(s.kern.value, t, allow)])
  {
  }

  lemma HeldGivesUpNothing(net: AddrSyntax, s: Loop, t: Ticket, q: Query)
    ensures var u := Held(net, s, t, q);
            u.abandoned == s.abandoned && u.resolved == s.resolved && t in WaitingOn(u, QuestionOf(net, q))
  {
    hide QuestionOf, PendingFor;
  }

  lemma PacketGivesUpNothing(net: AddrSyntax, s: Loop, seen: Seen, exe: Option<string>, host: Option<string>,
                             actual: Option<string>, note: string)
    ensures Packet(net, s, seen, exe, host, actual, note).abandoned == s.abandoned
  {
    hide Judge, Record, QuestionOf, PendingFor, QueryFor;
  }

  lemma ReloadGivesUp(net: AddrSyntax, s: Loop, fallback: Mode, adopted: Option<nat>)
    ensures var u := Reload(net, s, fallback, adopted);
            u.abandoned == s.abandoned || (s.upcallOn && !u.upcallOn)
  {
    hide Load, AllWaiting, ModeOf, AttributionOf;
  }

  lemma ReconcileGivesUp(s: Loop, readerOpens: bool)
    ensures var u := Reconcile(s, readerOpens);
            && (u.abandoned == s.abandoned || (s.upcallOn && !u.upcallOn))
            && (s.kern.None? ==> !u.upcallOn)
  {
    hide AllWaiting;
  }

  lemma TickGivesUp(net: AddrSyntax, fallback: Mode, s: Loop, e: Event)
    requires e.Ticked? && Possible(s, e) && Governed(fallback, s) && After(net, fallback, s, e).abandoned != s.abandoned
    ensures s.upcallOn && !After(net, fallback, s, e).upcallOn
  {
    var s1 := CheckHandle(s, e.dead, e.reopened);
    CheckHalfGoverned(fallback, s, e.dead, e.reopened);
    CheckGivesUpNothing(s, e.dead, e.reopened);
    hide CheckHandle, Reload, Reconcile, Governed, HalfGoverned, AttributionOf, ModeOf;
    if Stale(s1) {
      ReloadGivesUp(net, s1, fallback, e.adopted);
      ReloadHalfGoverned(net, fallback, s1, e.adopted);
      ReconcileGivesUp(Reload(net, s1, fallback, e.adopted), e.readerOpens);
    } else {
      ReconcileGivesUp(s1, e.readerOpens);
    }
  }

  lemma CheckGivesUpNothing(s: Loop, dead: bool, reopened: Option<nat>)
    ensures CheckHandle(s, dead, reopened).abandoned == s.abandoned
  {
    hide AttributionOf;
  }

  /** With a handle, a request from an unchanged binary is answered at once as the
      policy decides it, or waits if the policy asks; one from a changed binary
      waits whatever its rules say. */
  lemma RequestMeetsThePolicy(net: AddrSyntax, fallback: Mode, s: Loop, t: Ticket, path: string, dst: IpAddr,
                              host: Option<string>, dport: Port, actual: Option<string>)
    requires Inv(net, fallback, s) && t !in s.taken && s.kern.Some? && path != ""
    ensures var q, u := Query(Some(path), dst, host, dport), Missed(net, s, t, path, dst, host, dport, actual);
            var asks := Changed(s.pol, q.exe, actual) || Decide(s.pol, q) == Ask;
            && (asks <==> t in WaitingOn(u, QuestionOf(net, q)))
            && u.resolved == s.resolved
                             + if asks then [] else [Resolution(s.kern.value, t, Decide(s.pol, q) == Allow)]
  {
    var q, s1 := Query(Some(path), dst, host, dport), s.(taken := s.taken + {t});
    NotWaitingYet(s, t, QuestionOf(net, q));
    TellsOne(s1, t, true);
    TellsOne(s1, t, false);
    HeldGivesUpNothing(net, s1, t, q);
    assert s.resolved + [] == s.resolved;
    hide Decide, Changed, QuestionOf, Inv, Tell, Held;
  }

  lemma NotWaitingYet(s: Loop, t: Ticket, key: Question)
    requires Accounted(s) && t !in s.taken
    ensures t !in WaitingOn(s, key)
  {
    hide Answers, AnswersOnce, WaitsOnce;
    AllWaitingMeaning(s.waiting, t);
  }

  // ---- who governs UDP ----

  /** At the head of every turn UDP is diverted exactly when the upcall is off; the
      upcall is on only while a handle is held in enforcement; and no module that
      is still loaded is left asking a daemon that does not listen. A signalled
      exit then leaves UDP diverted, no loaded module asking and nothing pushed to
      the module at hand. */
  lemma UdpIsGovernedOnce(net: AddrSyntax, fallback: Mode, text: string, handle: Option<nat>,
                          es: seq<Event>, ss: seq<Loop>, n: nat)
    requires Runs(net, fallback, text, handle, es, ss) && n < |ss|
    ensures ss[n].diverting == !ss[n].upcallOn
    ensures ss[n].upcallOn ==> ss[n].kern.Some? && ss[n].mode == Enforcement
    ensures forall h :: h in ss[n].hooked - ss[n].unloaded ==> ss[n].upcallOn && ss[n].kern == Some(h)
    ensures Shutdown(ss[n]).diverting && Shutdown(ss[n]).hooked <= ss[n].unloaded
    ensures forall k :: k in Shutdown(ss[n]).pushed ==> ss[n].kern != Some(k.handle)
  {
    hide Runs, Accounted, PromptsInv;
    RunKeepsInv(net, fallback, text, handle, es, ss, n);
  }

  /** The upcall never outlives the handle it was turned on through. */
  lemma UpcallKeepsItsHandle(net: AddrSyntax, fallback: Mode, text: string, handle: Option<nat>,
                             es: seq<Event>, ss: seq<Loop>, n: nat)
    requires Runs(net, fallback, text, handle, es, ss) && n < |es|
    requires ss[n].upcallOn && ss[n + 1].upcallOn
    ensures ss[n + 1].kern == ss[n].kern
  {
    RunKeepsInv(net, fallback, text, handle, es, ss, n);
    hide Governed, Accounted, PromptsInv, Answered, Missed, Packet, Tick;
    var s := ss[n];
    match es[n] {
      case AnswerDrained(which, ans, sha, note) => AnsweringGovernsTheSame(net, s, which, ans, sha, note);
      case UpcallDrained(t, path, dst, host, dport, actual) => UpcallGovernsTheSame(net, s, t, path, dst, host, dport, actual);
      case PacketSeen(seen, exe, host, actual, note) => PacketGovernsTheSame(net, s, seen, exe, host, actual, note);
      case Ticked(_, _, _, _) => GovernedTick(net, fallback, s, es[n]);
      case Edited(_) =>
    }
  }
}
