/** Through which module a kernel request is answered, over runs in which modules
    are unloaded and loaded again. Source: src/main.rs, lines 494-577 and 592-697. */
module DaemonModules {
  import opened Options
  import opened Text
  import opened Targets
  import opened Policy
  import opened DaemonLoop
  import opened DaemonSafety

  predicate FromTheModuleAtHand(t: Ticket, on: bool, kern: Option<nat>) {
    on && kern == Some(t.source)
  }

  ghost predicate OwnWaiters(waiting: map<Question, seq<Ticket>>, on: bool, kern: Option<nat>) {
    forall k, i :: k in waiting && 0 <= i < |waiting[k]| ==> FromTheModuleAtHand(waiting[k][i], on, kern)
  }

  predicate OwnAnswers(resolved: seq<Resolution>) {
    forall i :: 0 <= i < |resolved| ==> resolved[i].handle == resolved[i].ticket.source
  }

  /** Whatever waits came from the module at hand, over an upcall that is still on;
      whatever was resolved was resolved through the module it came from. */
  ghost predicate OwnModule(s: Loop) {
    OwnWaiters(s.waiting, s.upcallOn, s.kern) && OwnAnswers(s.resolved)
  }

  /** A request is drained while the upcall is on and the module that sent it is at hand. */
  predicate Timely(s: Loop, e: Event) {
    e.UpcallDrained? ==> s.upcallOn && s.kern == Some(e.t.source)
  }

  // ---- one step ----

  /** Nobody is told, or all of them came from whom they are told through. */
  predicate AllOwn(kern: Option<nat>, ts: seq<Ticket>) {
    kern.None? || forall t :: t in ts ==> t.source == kern.value
  }

  lemma TellOwn(s: Loop, ts: seq<Ticket>, allow: bool)
    ensures OwnAnswers(Tell(s, ts, allow).resolved) <==> OwnAnswers(s.resolved) && AllOwn(s.kern, ts)
  {
    if s.kern.Some? {
      ResolvedOwn(s.resolved, s.kern.value, ts, allow);
    }
  }

  lemma ResolvedOwn(rs: seq<Resolution>, h: nat, ts: seq<Ticket>, allow: bool)
    ensures OwnAnswers(rs + ResolveAll(h, ts, allow)) <==> OwnAnswers(rs) && AllOwn(Some(h), ts)
  {
    var more := ResolveAll(h, ts, allow);
    var all := rs + more;
    assert forall i :: 0 <= i < |rs| ==> all[i] == rs[i];
    assert forall i :: 0 <= i < |more| ==> all[|rs| + i] == Resolution(h, ts[i], allow);
    if OwnAnswers(all) {
      forall t | t in ts ensures t.source == h {
        var i :| 0 <= i < |ts| && ts[i] == t;
        assert all[|rs| + i].ticket == t;
      }
    }
    if AllOwn(Some(h), ts) {
      forall i | 0 <= i < |more| ensures more[i].handle == more[i].ticket.source {
        assert ts[i] in ts;
      }
    }
  }

  /** A step resolves no request through a module it did not come from: an answer,
      none that waited on it; a request decided at once, not itself. */
  predicate RoutesOwn(net: AddrSyntax, s: Loop, e: Event)
    requires Possible(s, e)
  {
    match e
    case AnswerDrained(which, _, _, _) => AllOwn(s.kern, WaitingOn(s, KeyOf(net, s.prompts[which])))
    case UpcallDrained(t, path, dst, host, dport, actual) =>
      (path != "" && Judge(s.pol, Query(Some(path), dst, host, dport), actual) == Ask) || AllOwn(s.kern, [t])
    case _ => true
  }

  lemma AnswerRoutes(net: AddrSyntax, s: Loop, which: nat, ans: Answer, sha: Option<string>, note: string)
    requires which < |s.prompts|
    ensures var key, u := KeyOf(net, s.prompts[which]), Answered(net, s, which, ans, sha, note);
            && u.resolved == Tell(s, WaitingOn(s, key), Allows(ans)).resolved
            && u.waiting == s.waiting - {key} && u.upcallOn == s.upcallOn && u.kern == s.kern
  {
    var key := KeyOf(net, s.prompts[which]);
    TellKeepsTheRest(s, WaitingOn(s, key), Allows(ans));
    hide Tell, Record, Repin, KeyOf;
  }

  lemma UpcallRoutes(net: AddrSyntax, s: Loop, t: Ticket, path: string, dst: IpAddr, host: Option<string>, dport: Port, actual: Option<string>)
    ensures var u, s1 := Missed(net, s, t, path, dst, host, dport, actual), s.(taken := s.taken + {t});
            && u.upcallOn == s.upcallOn && u.kern == s.kern
            && if path != "" && Judge(s.pol, Query(Some(path), dst, host, dport), actual) == Ask
               then u.resolved == s.resolved && u == Held(net, s1, t, Query(Some(path), dst, host, dport))
               else (u.resolved == Tell(s1, [t], true).resolved || u.resolved == Tell(s1, [t], false).resolved)
                    && u.waiting == s.waiting
  {
    var s1 := s.(taken := s.taken + {t});
    TellKeepsTheRest(s1, [t], true);
    TellKeepsTheRest(s1, [t], false);
    HeldResolvesNothing(net, s1, t, Query(Some(path), dst, host, dport));
    hide Tell, Held, Judge;
  }

  lemma HeldResolvesNothing(net: AddrSyntax, s: Loop, t: Ticket, q: Query)
    ensures var u := Held(net, s, t, q); u.resolved == s.resolved && u.upcallOn == s.upcallOn && u.kern == s.kern
  {
    hide QuestionOf, PendingFor;
  }

  lemma PacketRoutesNothing(net: AddrSyntax, s: Loop, seen: Seen, exe: Option<string>, host: Option<string>, actual: Option<string>, note: string)
    ensures var u := Packet(net, s, seen, exe, host, actual, note);
            u.waiting == s.waiting && u.resolved == s.resolved && u.upcallOn == s.upcallOn && u.kern == s.kern
  {
    hide Judge, Record, Fresh, QueryFor;
    if Judged(seen) && seen.flow !in s.decided {
      FreshRoutesNothing(net, s, seen.flow, QueryFor(seen.flow, exe, host), actual, note);
    }
  }

  lemma FreshRoutesNothing(net: AddrSyntax, s: Loop, flow: FlowKey, q: Query, actual: Option<string>, note: string)
    ensures var u := Fresh(net, s, flow, q, actual, note);
            u.waiting == s.waiting && u.resolved == s.resolved && u.upcallOn == s.upcallOn && u.kern == s.kern
  {
    var v := Judge(s.pol, q, actual);
    SettlingRoutesNothing(s, flow, q, v);
    hide Judge, Record, QuestionOf, PendingFor, Remember, Pushing, Wrote;
  }

  lemma SettlingRoutesNothing(s: Loop, flow: FlowKey, q: Query, v: Verdict)
    ensures var u := Pushing(Remember(s, flow, q, v), flow, q, v);
            u.waiting == s.waiting && u.resolved == s.resolved && u.upcallOn == s.upcallOn && u.kern == s.kern
  {
  }

  lemma CheckRoutesNothing(s: Loop, dead: bool, reopened: Option<nat>)
    ensures var u := CheckHandle(s, dead, reopened);
            u.waiting == s.waiting && u.resolved == s.resolved && u.upcallOn == s.upcallOn
  {
    hide AttributionOf;
  }

  lemma ReloadRoutesNothing(net: AddrSyntax, s: Loop, fallback: Mode, adopted: Option<nat>)
    ensures var u := Reload(net, s, fallback, adopted);
            && u.resolved == s.resolved && (u.upcallOn ==> s.upcallOn)
            && (u.waiting == s.waiting || u.waiting == map[]) && (s.upcallOn && !u.upcallOn ==> u.waiting == map[])
  {
    hide Load, AllWaiting, ModeOf, AttributionOf, Flushed;
  }

  lemma ReconcileRoutesNothing(s: Loop, readerOpens: bool)
    ensures var u := Reconcile(s, readerOpens);
            && u.resolved == s.resolved
            && (u.waiting == s.waiting || u.waiting == map[]) && (s.upcallOn && !u.upcallOn ==> u.waiting == map[])
  {
    hide AllWaiting;
  }

  lemma TickRoutesNothing(net: AddrSyntax, fallback: Mode, s: Loop, e: Event)
    requires e.Ticked? && Possible(s, e)
    ensures var u := After(net, fallback, s, e);
            && u.resolved == s.resolved && (u.waiting == s.waiting || u.waiting == map[])
            && (s.upcallOn && !u.upcallOn ==> u.waiting == map[])
  {
    var s1 := CheckHandle(s, e.dead, e.reopened);
    CheckRoutesNothing(s, e.dead, e.reopened);
    hide CheckHandle, Reload, Reconcile, Load;
    if Stale(s1) {
      ReloadRoutesNothing(net, s1, fallback, e.adopted);
      ReconcileRoutesNothing(Reload(net, s1, fallback, e.adopted), e.readerOpens);
    } else {
      ReconcileRoutesNothing(s1, e.readerOpens);
    }
  }

  lemma StepRoutes(net: AddrSyntax, fallback: Mode, s: Loop, e: Event)
    requires Possible(s, e)
    ensures OwnAnswers(After(net, fallback, s, e).resolved) <==> OwnAnswers(s.resolved) && RoutesOwn(net, s, e)
  {
    hide Answered, Missed, Packet, Tick, OwnAnswers, Judge, KeyOf, Tell, Held, AllOwn;
    match e {
      case AnswerDrained(which, ans, sha, note) =>
        AnswerRoutes(net, s, which, ans, sha, note);
        TellOwn(s, WaitingOn(s, KeyOf(net, s.prompts[which])), Allows(ans));
      case UpcallDrained(t, path, dst, host, dport, actual) =>
        UpcallRoutes(net, s, t, path, dst, host, dport, actual);
        TellOwn(s.(taken := s.taken + {t}), [t], true);
        TellOwn(s.(taken := s.taken + {t}), [t], false);
      case PacketSeen(seen, exe, host, actual, note) => PacketRoutesNothing(net, s, seen, exe, host, actual, note);
      case Ticked(_, _, _, _) => TickRoutesNothing(net, fallback, s, e);
      case Edited(_) =>
    }
  }

  /** Over any run every resolution went through the module its request came from if
      and only if every step routed its own: no answer found a waiter of another
      module, and no request of another module was decided at once. */
  lemma {:induction false} RoutedOverRuns(net: AddrSyntax, fallback: Mode, text: string, handle: Option<nat>,
                                          es: seq<Event>, ss: seq<Loop>, n: nat)
    requires Runs(net, fallback, text, handle, es, ss) && n < |ss|
    ensures OwnAnswers(ss[n].resolved) <==> forall i :: 0 <= i < n ==> RoutesOwn(net, ss[i], es[i])
  {
    hide After, Possible, Load, RoutesOwn;
    if n > 0 {
      RoutedOverRuns(net, fallback, text, handle, es, ss, n - 1);
      hide OwnAnswers, Start;
      StepRoutes(net, fallback, ss[n - 1], es[n - 1]);
    }
  }

  // ---- requests drained in time ----

  lemma FewerWaiters(waiting: map<Question, seq<Ticket>>, key: Question, on: bool, kern: Option<nat>)
    requires OwnWaiters(waiting, on, kern)
    ensures OwnWaiters(waiting - {key}, on, kern)
  {
    var rest: map<Question, seq<Ticket>> := waiting - {key};
    forall k, i | k in rest && 0 <= i < |rest[k]| ensures FromTheModuleAtHand(rest[k][i], on, kern) {
      assert rest[k] == waiting[k];
    }
  }

  lemma WaitersStay(waiting: map<Question, seq<Ticket>>, on: bool, kern: Option<nat>, on': bool, kern': Option<nat>)
    requires OwnWaiters(waiting, on, kern) && (on ==> on' && kern' == kern)
    ensures OwnWaiters(waiting, on', kern')
  {
    assert forall t: Ticket :: FromTheModuleAtHand(t, on, kern) ==> FromTheModuleAtHand(t, on', kern');
  }

  lemma NobodyWaits(on: bool, kern: Option<nat>)
    ensures OwnWaiters(map[], on, kern)
  {
  }

  lemma HeldWaits(net: AddrSyntax, s: Loop, t: Ticket, q: Query)
    requires OwnWaiters(s.waiting, s.upcallOn, s.kern) && s.upcallOn && s.kern == Some(t.source)
    ensures OwnWaiters(Held(net, s, t, q).waiting, s.upcallOn, s.kern)
  {
    hide QuestionOf, PendingFor;
    var u := Held(net, s, t, q);
    forall k, i | k in u.waiting && 0 <= i < |u.waiting[k]| ensures FromTheModuleAtHand(u.waiting[k][i], s.upcallOn, s.kern) {
      if k in s.waiting && i < |s.waiting[k]| {
        assert u.waiting[k][i] == s.waiting[k][i];
      } else {
        assert u.waiting[k][i] == t;
      }
    }
  }

  lemma TimelyRoutes(net: AddrSyntax, s: Loop, e: Event)
    requires Possible(s, e) && OwnWaiters(s.waiting, s.upcallOn, s.kern) && Timely(s, e)
    ensures RoutesOwn(net, s, e)
  {
    hide KeyOf, Judge;
  }

  lemma OwnStep(net: AddrSyntax, fallback: Mode, s: Loop, e: Event)
    requires Governed(fallback, s) && Possible(s, e) && OwnModule(s) && Timely(s, e)
    ensures OwnModule(After(net, fallback, s, e))
  {
    TimelyRoutes(net, s, e);
    StepRoutes(net, fallback, s, e);
    hide Answered, Missed, Packet, Tick, Governed, OwnAnswers, OwnWaiters, RoutesOwn, KeyOf, Judge, Tell, Held;
    var u := After(net, fallback, s, e);
    match e {
      case AnswerDrained(which, ans, sha, note) =>
        AnswerRoutes(net, s, which, ans, sha, note);
        FewerWaiters(s.waiting, KeyOf(net, s.prompts[which]), s.upcallOn, s.kern);
      case UpcallDrained(t, path, dst, host, dport, actual) =>
        UpcallRoutes(net, s, t, path, dst, host, dport, actual);
        HeldWaits(net, s.(taken := s.taken + {t}), t, Query(Some(path), dst, host, dport));
      case PacketSeen(seen, exe, host, actual, note) => PacketRoutesNothing(net, s, seen, exe, host, actual, note);
      case Ticked(_, _, _, _) =>
        GovernedTick(net, fallback, s, e);
        TickRoutesNothing(net, fallback, s, e);
        NobodyWaits(u.upcallOn, u.kern);
        if !(s.upcallOn && !u.upcallOn) {
          WaitersStay(s.waiting, s.upcallOn, s.kern, u.upcallOn, u.kern);
        }
      case Edited(_) =>
    }
  }

  /** If every request is drained in time, every one is resolved through the module
      it came from, over any run. */
  lemma {:induction false} ResolvedThroughItsOwnModule(net: AddrSyntax, fallback: Mode, text: string, handle: Option<nat>,
                                                       es: seq<Event>, ss: seq<Loop>, n: nat)
    requires Runs(net, fallback, text, handle, es, ss) && n < |ss|
    requires forall i :: 0 <= i < n ==> Timely(ss[i], es[i])
    ensures OwnModule(ss[n])
  {
    hide After, Possible, Load, Timely;
    if n > 0 {
      ResolvedThroughItsOwnModule(net, fallback, text, handle, es, ss, n - 1);
      RunKeepsInv(net, fallback, text, handle, es, ss, n - 1);
      hide OwnModule, Start, Governed, Accounted, PromptsInv;
      OwnStep(net, fallback, ss[n - 1], es[n - 1]);
    }
  }

  /** A request decided at once goes through whatever module is at hand: its own if
      and only if that is the one it came from. So one drained after its module
      was replaced is resolved through another. */
  lemma DecidedAtOnceThroughTheModuleAtHand(net: AddrSyntax, s: Loop, t: Ticket, path: string, dst: IpAddr, host: Option<string>,
                                            dport: Port, actual: Option<string>)
    requires s.kern.Some? && path != "" && Judge(s.pol, Query(Some(path), dst, host, dport), actual) != Ask && OwnModule(s)
    ensures var u := Missed(net, s, t, path, dst, host, dport, actual);
            && |u.resolved| == |s.resolved| + 1 && u.resolved[|s.resolved|].ticket == t
            && (OwnModule(u) <==> s.kern == Some(t.source))
  {
    var s1 := s.(taken := s.taken + {t});
    UpcallRoutes(net, s, t, path, dst, host, dport, actual);
    TellOne(s1, t, true);
    TellOne(s1, t, false);
    hide Judge, Tell, Missed;
  }

  lemma TellOne(s: Loop, t: Ticket, allow: bool)
    requires s.kern.Some? && OwnAnswers(s.resolved)
    ensures var u := Tell(s, [t], allow);
            && |u.resolved| == |s.resolved| + 1 && u.resolved[|s.resolved|].ticket == t
            && (OwnAnswers(u.resolved) <==> s.kern == Some(t.source))
  {
    TellOwn(s, [t], allow);
  }

  /** A request that waited goes through whatever module is at hand when its
      question is answered: every waiter's own if and only if they all came from
      that one. So one drained late may be resolved through a module that never
      sent it. */
  lemma AnsweredThroughTheModuleAtHand(net: AddrSyntax, s: Loop, which: nat, ans: Answer, sha: Option<string>, note: string)
    requires which < |s.prompts| && s.kern.Some? && OwnAnswers(s.resolved)
    ensures OwnAnswers(Answered(net, s, which, ans, sha, note).resolved)
            <==> forall t :: t in WaitingOn(s, KeyOf(net, s.prompts[which])) ==> s.kern == Some(t.source)
  {
    var ts := WaitingOn(s, KeyOf(net, s.prompts[which]));
    AnswerRoutes(net, s, which, ans, sha, note);
    TellOwn(s, ts, Allows(ans));
    hide Tell, Answered, OwnAnswers, KeyOf;
  }
}
