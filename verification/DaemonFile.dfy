/** The policy in memory against the policy file on disk, over runs in which the
    file is also edited from outside. Source: src/main.rs, lines 494-524, 592-617
    and 855-876. */
module DaemonFile {
  import opened Options
  import opened Text
  import opened Targets
  import opened Policy
  import opened PolicyRecord
  import opened UnterminatedPins
  import opened AnyFile
  import opened DaemonLoop
  import opened DaemonSafety
  import opened DaemonVerdicts

  ghost predicate InStep(net: AddrSyntax, s: Loop) {
    s.pol == Load(net, s.disk.text)
  }

  /** Names and paths a policy line can carry. */
  predicate CleanEvent(e: Event) {
    match e
    case AnswerDrained(_, _, sha, note) => '\n' !in note && (sha.Some? ==> CleanText(sha.value) && NoWs(sha.value))
    case UpcallDrained(_, path, dst, host, dport, _) => path != "" ==> CleanQuery(Query(Some(path), dst, host, dport))
    case PacketSeen(seen, exe, host, _, note) => '\n' !in note && (seen.Seen? ==> CleanQuery(QueryFor(seen.flow, exe, host)))
    case _ => true
  }

  predicate CleanPrompts(s: Loop) {
    forall i :: 0 <= i < |s.prompts| ==> CleanQuery(AskedOf(s.prompts[i]))
  }

  predicate LearnsAt(s: Loop, e: Event) {
    e.PacketSeen? && Learns(s, e.seen, e.exe, e.host, e.actual)
  }

  /** The file is loaded. */
  predicate LoadsAt(s: Loop, e: Event) {
    e.Ticked? && Stale(s)
  }

  /** When a turn of the loop keeps memory and file in agreement: what it records
      must reach the file, and the file must lose nothing by it. */
  predicate Keeps(net: AddrSyntax, s: Loop, e: Event)
    requires Possible(s, e)
  {
    match e
    case AnswerDrained(which, ans, sha, note) => AnswerKeeps(net, s.disk.text, ans, AskedOf(s.prompts[which]), sha, note)
    case PacketSeen(_, _, _, _, _) => LearnsAt(s, e) ==> LearnKeeps(net, s, e)
    case _ => true
  }

  predicate LearnKeeps(net: AddrSyntax, s: Loop, e: Event)
    requires LearnsAt(s, e)
  {
    TakesUp(net, s.pol, s.disk.text, AllowConn, QueryFor(e.seen.flow, e.exe, e.host), e.note)
  }

  // ---- what each step writes ----

  lemma AnswerWrites(net: AddrSyntax, s: Loop, which: nat, ans: Answer, sha: Option<string>, note: string)
    requires which < |s.prompts|
    ensures var p, u := s.prompts[which], Answered(net, s, which, ans, sha, note);
            && (u.pol, u.disk.text) == WholeAnswer(net, s.pol, s.disk.text, ans, AskedOf(p), sha, note)
            && u.disk == Wrote(Wrote(s.disk, Repin(s.pol, s.disk.text, p.exe, ans, sha).1), u.disk.text)
            && u.prompts == s.prompts[..which] + s.prompts[which + 1..] && u.mark == s.mark
  {
    hide Record, Repin, KeyOf;
  }

  lemma UpcallWrites(net: AddrSyntax, s: Loop, t: Ticket, path: string, dst: IpAddr, host: Option<string>, dport: Port, actual: Option<string>)
    ensures var u := Missed(net, s, t, path, dst, host, dport, actual);
            && u.pol == s.pol && u.disk == s.disk && u.mark == s.mark
            && (u.prompts == s.prompts || (path != "" && u.prompts == s.prompts + [PendingFor(Query(Some(path), dst, host, dport))]))
  {
    var s1 := s.(taken := s.taken + {t});
    TellKeepsTheRest(s1, [t], true);
    TellKeepsTheRest(s1, [t], false);
    hide Judge, QuestionOf, PendingFor, Tell;
  }

  lemma FreshWrites(net: AddrSyntax, s: Loop, flow: FlowKey, q: Query, actual: Option<string>, note: string)
    ensures var u := Fresh(net, s, flow, q, actual, note);
            if Judge(s.pol, q, actual) == Ask && s.mode == Visibility then
              && u.prompts == s.prompts && (u.pol, u.disk.text) == Record(net, s.pol, s.disk.text, AllowConn, q, note)
              && u.mark == u.disk.stamp
            else
              && u.pol == s.pol && u.disk == s.disk && u.mark == s.mark
              && (u.prompts == s.prompts || u.prompts == s.prompts + [PendingFor(q)])
  {
    hide Judge, Record, QuestionOf, PendingFor;
  }

  lemma PacketWrites(net: AddrSyntax, s: Loop, e: Event)
    requires e.PacketSeen?
    ensures var u := Packet(net, s, e.seen, e.exe, e.host, e.actual, e.note);
            if LearnsAt(s, e) then
              && u.prompts == s.prompts && u.mark == u.disk.stamp
              && (u.pol, u.disk.text) == Record(net, s.pol, s.disk.text, AllowConn, QueryFor(e.seen.flow, e.exe, e.host), e.note)
            else
              && u.pol == s.pol && u.disk == s.disk && u.mark == s.mark
              && (u.prompts == s.prompts
                  || (e.seen.Seen? && u.prompts == s.prompts + [PendingFor(QueryFor(e.seen.flow, e.exe, e.host))]))
  {
    hide Judge, Record, Fresh, QueryFor, PendingFor;
    if Judged(e.seen) && e.seen.flow !in s.decided {
      FreshWrites(net, s, e.seen.flow, QueryFor(e.seen.flow, e.exe, e.host), e.actual, e.note);
    }
  }

  lemma CheckWritesNothing(s: Loop, dead: bool, reopened: Option<nat>)
    ensures var u := CheckHandle(s, dead, reopened);
            u.pol == s.pol && u.disk == s.disk && u.mark == s.mark && u.prompts == s.prompts
  {
    hide AttributionOf;
  }

  lemma ReloadReads(net: AddrSyntax, s: Loop, fallback: Mode, adopted: Option<nat>)
    ensures var u := Reload(net, s, fallback, adopted);
            u.pol == Load(net, s.disk.text) && u.disk == s.disk && u.mark == s.disk.stamp && u.prompts == s.prompts
  {
    hide Load, AllWaiting, ModeOf, AttributionOf, Flushed;
  }

  lemma ReconcileWritesNothing(s: Loop, readerOpens: bool)
    ensures var u := Reconcile(s, readerOpens);
            u.pol == s.pol && u.disk == s.disk && u.mark == s.mark && u.prompts == s.prompts
  {
    hide AllWaiting;
  }

  /** A tick notes every change of the file there has been. */
  lemma TickReads(net: AddrSyntax, fallback: Mode, s: Loop, e: Event)
    requires e.Ticked? && Possible(s, e)
    ensures var u := After(net, fallback, s, e);
            && u.disk == s.disk && u.prompts == s.prompts && !Stale(u)
            && u.pol == if Stale(s) then Load(net, s.disk.text) else s.pol
  {
    var s1 := CheckHandle(s, e.dead, e.reopened);
    CheckWritesNothing(s, e.dead, e.reopened);
    hide Load, CheckHandle, Reload, Reconcile;
    if Stale(s1) {
      ReloadReads(net, s1, fallback, e.adopted);
      ReconcileWritesNothing(Reload(net, s1, fallback, e.adopted), e.readerOpens);
    } else {
      ReconcileWritesNothing(s1, e.readerOpens);
    }
  }

  // ---- what is asked stays clean ----

  lemma FewerPrompts(s: Loop, u: Loop, which: nat)
    requires which < |s.prompts| && CleanPrompts(s) && u.prompts == s.prompts[..which] + s.prompts[which + 1..]
    ensures CleanPrompts(u)
  {
    hide CleanQuery, AskedOf;
  }

  lemma PendingIsClean(q: Query)
    requires CleanQuery(q)
    ensures CleanQuery(AskedOf(PendingFor(q)))
  {
    hide CleanText, CleanHost;
  }

  lemma OneMorePrompt(s: Loop, u: Loop, q: Query)
    requires CleanPrompts(s) && CleanQuery(q) && u.prompts == s.prompts + [PendingFor(q)]
    ensures CleanPrompts(u)
  {
    PendingIsClean(q);
    hide CleanQuery, AskedOf, PendingFor;
  }

  lemma SamePrompts(s: Loop, u: Loop)
    requires CleanPrompts(s) && u.prompts == s.prompts
    ensures CleanPrompts(u)
  {
  }

  lemma StepAsksClean(net: AddrSyntax, fallback: Mode, s: Loop, e: Event)
    requires Possible(s, e) && CleanPrompts(s) && CleanEvent(e)
    ensures CleanPrompts(After(net, fallback, s, e))
  {
    hide Answered, Missed, Packet, Tick, CleanPrompts, CleanQuery, QueryFor, PendingFor, Learns;
    var u := After(net, fallback, s, e);
    match e {
      case AnswerDrained(which, ans, sha, note) =>
        AnswerWrites(net, s, which, ans, sha, note);
        FewerPrompts(s, u, which);
      case UpcallDrained(t, path, dst, host, dport, actual) =>
        UpcallWrites(net, s, t, path, dst, host, dport, actual);
        if u.prompts == s.prompts { SamePrompts(s, u); } else { OneMorePrompt(s, u, Query(Some(path), dst, host, dport)); }
      case PacketSeen(seen, exe, host, _, _) =>
        PacketWrites(net, s, e);
        if u.prompts == s.prompts { SamePrompts(s, u); } else { OneMorePrompt(s, u, QueryFor(seen.flow, exe, host)); }
      case Ticked(_, _, _, _) =>
        TickReads(net, fallback, s, e);
        SamePrompts(s, u);
      case Edited(_) => SamePrompts(s, u);
    }
  }

  lemma {:induction false} RunAsksClean(net: AddrSyntax, fallback: Mode, text: string, handle: Option<nat>,
                                        es: seq<Event>, ss: seq<Loop>, n: nat)
    requires Runs(net, fallback, text, handle, es, ss) && n < |ss|
    requires forall i :: 0 <= i < |es| ==> CleanEvent(es[i])
    ensures CleanPrompts(ss[n])
  {
    hide After, Possible, CleanEvent, Load, CleanQuery, AskedOf;
    if n > 0 {
      RunAsksClean(net, fallback, text, handle, es, ss, n - 1);
      hide CleanPrompts;
      StepAsksClean(net, fallback, ss[n - 1], es[n - 1]);
    }
  }

  // ---- one step from agreement ----

  lemma PinIsClean(p: Pending, sha: string)
    requires CleanQuery(AskedOf(p)) && p.exe.Some? && CleanText(sha) && NoWs(sha)
    ensures CleanPin(p.exe.value, sha)
  {
    hide CleanText, CleanHost, NoWs;
  }

  lemma AnswerInStep(net: AddrSyntax, s: Loop, which: nat, ans: Answer, sha: Option<string>, note: string)
    requires Lawful(net) && which < |s.prompts| && InStep(net, s) && CleanPrompts(s) && CleanEvent(AnswerDrained(which, ans, sha, note))
    ensures InStep(net, Answered(net, s, which, ans, sha, note))
            <==> AnswerKeeps(net, s.disk.text, ans, AskedOf(s.prompts[which]), sha, note)
  {
    var p := s.prompts[which];
    AnswerWrites(net, s, which, ans, sha, note);
    if p.exe.Some? && sha.Some? {
      PinIsClean(p, sha.value);
    }
    assert AskedOf(p).exe == p.exe;
    hide Load, Answered, WholeAnswer, CleanQuery, CleanPin, Lawful, AskedOf, AnswerKeeps, CleanText, NoWs;
    AnswerIntoAnyFile(net, s.disk.text, ans, AskedOf(p), sha, note);
  }

  lemma LearnInStep(net: AddrSyntax, s: Loop, e: Event)
    requires Lawful(net) && LearnsAt(s, e) && CleanEvent(e)
    ensures var u := Packet(net, s, e.seen, e.exe, e.host, e.actual, e.note);
            !Stale(u) && (InStep(net, u) <==> LearnKeeps(net, s, e))
  {
    var q := QueryFor(e.seen.flow, e.exe, e.host);
    assert RecordedRule(AllowConn, q).Some?;
    PacketWrites(net, s, e);
    hide Load, Packet, Record, QueryFor, CleanQuery, Lawful, TakesUp, RecordedRule;
    RecordIntoAnyFile(net, s.pol, s.disk.text, AllowConn, q, e.note);
  }

  /** From agreement, on any file: a turn of the loop keeps it if and only if
      `Keeps` says so. */
  lemma StepInStep(net: AddrSyntax, fallback: Mode, s: Loop, e: Event)
    requires Lawful(net) && Possible(s, e) && InStep(net, s) && CleanPrompts(s) && CleanEvent(e) && !e.Edited?
    ensures InStep(net, After(net, fallback, s, e)) <==> Keeps(net, s, e)
  {
    hide Answered, Missed, Packet, Tick, CleanEvent, CleanPrompts, Lawful, Load, Learns, LearnKeeps, AnswerKeeps;
    match e {
      case AnswerDrained(which, ans, sha, note) => AnswerInStep(net, s, which, ans, sha, note);
      case UpcallDrained(t, path, dst, host, dport, actual) => UpcallWrites(net, s, t, path, dst, host, dport, actual);
      case PacketSeen(_, _, _, _, _) =>
        PacketWrites(net, s, e);
        if LearnsAt(s, e) {
          LearnInStep(net, s, e);
        }
      case Ticked(_, _, _, _) => TickReads(net, fallback, s, e);
    }
  }

  /** From any point where they agree, memory and file go on agreeing while nobody
      else edits the file, until a step that does not keep them so; and that step
      parts them. */
  lemma {:induction false} MemoryIsTheFile(net: AddrSyntax, fallback: Mode, text: string, handle: Option<nat>,
                                           es: seq<Event>, ss: seq<Loop>, from: nat, n: nat)
    requires Lawful(net) && Runs(net, fallback, text, handle, es, ss) && from <= n < |ss| && InStep(net, ss[from])
    requires forall i :: 0 <= i < |es| ==> CleanEvent(es[i])
    requires forall i :: from <= i < n ==> !es[i].Edited? && Keeps(net, ss[i], es[i])
    ensures InStep(net, ss[n])
    ensures n < |es| && !es[n].Edited? ==> (InStep(net, ss[n + 1]) <==> Keeps(net, ss[n], es[n]))
    decreases n
  {
    hide After, Possible, CleanEvent, Keeps, InStep, Lawful, Start;
    if n > from {
      MemoryIsTheFile(net, fallback, text, handle, es, ss, from, n - 1);
    }
    if n < |es| && !es[n].Edited? {
      RunAsksClean(net, fallback, text, handle, es, ss, n);
      StepInStep(net, fallback, ss[n], es[n]);
    }
  }

  lemma StartInStep(net: AddrSyntax, fallback: Mode, text: string, handle: Option<nat>)
    ensures var s := Start(net, fallback, text, handle); InStep(net, s) && !Stale(s) && NotAhead(s)
  {
    hide Load;
  }

  // ---- with edits from outside ----

  predicate NotAhead(s: Loop) { s.mark <= s.disk.stamp }

  lemma AnswerLeavesNoted(net: AddrSyntax, s: Loop, which: nat, ans: Answer, sha: Option<string>, note: string)
    requires which < |s.prompts| && NotAhead(s)
    ensures var u := Answered(net, s, which, ans, sha, note);
            NotAhead(u) && (!Stale(u) ==> !Stale(s) && u.pol == s.pol && u.disk == s.disk)
  {
    AnswerWrites(net, s, which, ans, sha, note);
    SilentAnswer(net, s.pol, s.disk.text, ans, AskedOf(s.prompts[which]), sha, note);
    hide Answered, Record, Repin;
  }

  /** Neither learning nor loading, a step that leaves nothing unnoted found nothing
      unnoted and changed neither memory nor file. */
  lemma QuietStep(net: AddrSyntax, fallback: Mode, s: Loop, e: Event)
    requires Possible(s, e) && NotAhead(s) && !LearnsAt(s, e) && !LoadsAt(s, e)
    ensures var u := After(net, fallback, s, e);
            NotAhead(u) && (!Stale(u) ==> !Stale(s) && u.pol == s.pol && u.disk == s.disk)
  {
    hide Answered, Missed, Packet, Tick, Load, Learns;
    match e {
      case AnswerDrained(which, ans, sha, note) => AnswerLeavesNoted(net, s, which, ans, sha, note);
      case UpcallDrained(t, path, dst, host, dport, actual) => UpcallWrites(net, s, t, path, dst, host, dport, actual);
      case PacketSeen(_, _, _, _, _) => PacketWrites(net, s, e);
      case Ticked(_, _, _, _) => TickReads(net, fallback, s, e);
      case Edited(_) =>
    }
  }

  /** Step i learns, and no step from there to n learns or loads. */
  ghost predicate LastLearned(es: seq<Event>, ss: seq<Loop>, i: nat, n: nat)
    requires n <= |es| <= |ss|
  {
    i < n && LearnsAt(ss[i], es[i]) && forall j :: i < j < n ==> !LearnsAt(ss[j], es[j]) && !LoadsAt(ss[j], es[j])
  }

  /** If the file was learned into since it was last loaded, that brought memory and
      file together. */
  ghost predicate LastLearnedKept(net: AddrSyntax, es: seq<Event>, ss: seq<Loop>, n: nat)
    requires n <= |es| <= |ss|
  {
    forall i: nat :: LastLearned(es, ss, i, n) ==> LearnKeeps(net, ss[i], es[i])
  }

  lemma LastLearnedNow(net: AddrSyntax, es: seq<Event>, ss: seq<Loop>, n: nat)
    requires n < |es| < |ss|
    ensures LearnsAt(ss[n], es[n]) ==> (LastLearnedKept(net, es, ss, n + 1) <==> LearnKeeps(net, ss[n], es[n]))
    ensures LoadsAt(ss[n], es[n]) ==> LastLearnedKept(net, es, ss, n + 1)
    ensures !LearnsAt(ss[n], es[n]) && !LoadsAt(ss[n], es[n])
            ==> (LastLearnedKept(net, es, ss, n + 1) <==> LastLearnedKept(net, es, ss, n))
  {
    hide Learns, Stale, LearnKeeps;
    assert LearnsAt(ss[n], es[n]) ==> LastLearned(es, ss, n, n + 1);
    forall i: nat | i < n
      ensures LastLearned(es, ss, i, n + 1)
              <==> LastLearned(es, ss, i, n) && !LearnsAt(ss[n], es[n]) && !LoadsAt(ss[n], es[n])
    {
    }
  }

  /** Over any run, on any files, edited from outside at any time: where the loop
      has noted the file's last change, as it has after every tick, the policy in
      memory is the meaning of the file if and only if the last packet learned
      since the last load, if any, brought them together. Learning moves the
      watermark past an edit that was never read. */
  lemma {:induction false} NotedFileIsInMemory(net: AddrSyntax, fallback: Mode, text: string, handle: Option<nat>,
                                               es: seq<Event>, ss: seq<Loop>, n: nat)
    requires Lawful(net) && Runs(net, fallback, text, handle, es, ss) && n < |ss|
    requires forall i :: 0 <= i < |es| ==> CleanEvent(es[i])
    ensures NotAhead(ss[n]) && (!Stale(ss[n]) ==> (InStep(net, ss[n]) <==> LastLearnedKept(net, es, ss, n)))
    ensures n > 0 && es[n - 1].Ticked? ==> !Stale(ss[n])
  {
    hide After, Possible, CleanEvent, LearnsAt, LearnKeeps, Lawful, Start, Load;
    if n == 0 {
      StartInStep(net, fallback, text, handle);
      hide InStep, NotAhead, Stale;
      assert LastLearnedKept(net, es, ss, 0);
    } else {
      NotedFileIsInMemory(net, fallback, text, handle, es, ss, n - 1);
      hide LastLearnedKept;
      LastLearnedNow(net, es, ss, n - 1);
      NotedStep(net, fallback, ss[n - 1], es[n - 1]);
    }
  }

  lemma NotedStep(net: AddrSyntax, fallback: Mode, s: Loop, e: Event)
    requires Lawful(net) && Possible(s, e) && CleanEvent(e) && NotAhead(s)
    ensures var u := After(net, fallback, s, e);
            && NotAhead(u)
            && (LearnsAt(s, e) ==> (InStep(net, u) <==> LearnKeeps(net, s, e)))
            && (LoadsAt(s, e) ==> InStep(net, u))
            && (!LearnsAt(s, e) && !LoadsAt(s, e) && !Stale(u) ==> !Stale(s) && (InStep(net, u) <==> InStep(net, s)))
            && (e.Ticked? ==> !Stale(u))
  {
    hide Packet, Tick, Load, Learns, CleanEvent, Lawful, LearnKeeps, Answered, Missed;
    if LearnsAt(s, e) {
      LearnInStep(net, s, e);
    } else if e.Ticked? {
      TickReads(net, fallback, s, e);
    } else {
      QuietStep(net, fallback, s, e);
    }
  }
}
