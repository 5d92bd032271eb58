/** What the daemon's one loop carries from turn to turn: questions being asked,
    kernel requests waiting on them, settled verdicts, the kernel handle and who
    governs UDP. Source: src/main.rs, lines 339-385 and 444-1005. */
module DaemonLoop {
  import opened Options
  import opened Text
  import opened Targets
  import opened Policy

  const DECIDED_CAP := 16384

  /** What is being asked: one binary about one destination. */
  datatype Question = Question(exe: string, dest: string)

  /** A prompt that is raised and not answered. */
  datatype Pending = Pending(host: Option<string>, exe: Option<string>, dst: IpAddr, dport: Port)

  /** A kernel request, told apart by the module it came from. */
  datatype Ticket = Ticket(source: nat, id: nat)
  datatype Resolution = Resolution(handle: nat, ticket: Ticket, allow: bool)

  /** What a verdict handed to a module's cache is kept under there. */
  datatype PushKey = PushKey(handle: nat, proto: nat, dst: IpAddr, dport: Port, path: string)

  /** The policy file as it is on disk, and the stamp of its last change. */
  datatype Disk = Disk(text: string, stamp: nat)

  datatype FlowKey = FlowKey(proto: nat, src: IpAddr, sport: Port, dst: IpAddr, dport: Port)
  datatype Settled = Settled(query: Query, verdict: Verdict)
  datatype Fate = Reinject | Hold | Refuse

  /** A divert packet: not parsed, or its flow, whether it opens a TCP connection
      and whether it came from outside. */
  datatype Seen = Unreadable | Seen(flow: FlowKey, synOnly: bool, inbound: bool)

  /** The loop's own variables, then the world it acts on: prompts on screen,
      whether pf diverts UDP, which modules were last told to ask, which are known
      to be unloaded, what became of every kernel request drained, the verdicts that
      stand pushed to each module, and the policy file. `mark` is the stamp of the
      file as the loop last took note of it. */
  datatype Loop = Loop(
    pol: Meaning, mark: nat, mode: Mode, kern: Option<nat>, upcallOn: bool,
    asking: set<Question>, waiting: map<Question, seq<Ticket>>, decided: map<FlowKey, Settled>,
    prompts: seq<Pending>, diverting: bool, hooked: set<nat>, unloaded: set<nat>,
    taken: set<Ticket>, resolved: seq<Resolution>, abandoned: set<Ticket>,
    pushed: map<PushKey, Settled>, disk: Disk)

  function ModeOf(m: Meaning, fallback: Mode): Mode {
    if m.mode.Some? then m.mode.value else fallback
  }

  function AttributionOf(m: Meaning): AttributionMode {
    if m.attribution.Some? then m.attribution.value else Procstat
  }

  /** What counts as the same destination: its name when one is known. */
  function AskKey(net: AddrSyntax, host: Option<string>, dst: IpAddr): string {
    if Named(host) then Lower(host.value) else net.show(dst)
  }

  function OrEmpty(s: Option<string>): string {
    if s.Some? then s.value else ""
  }

  function NonEmpty(s: string): Option<string> {
    if s == "" then None else Some(s)
  }

  /** The question a prompt answers, rebuilt from what the prompt carries. */
  function KeyOf(net: AddrSyntax, p: Pending): Question {
    Question(OrEmpty(p.exe), AskKey(net, p.host, p.dst))
  }

  function ResolveAll(handle: nat, tickets: seq<Ticket>, allow: bool): (r: seq<Resolution>)
    ensures |r| == |tickets|
    ensures forall i :: 0 <= i < |r| ==> r[i] == Resolution(handle, tickets[i], allow)
  {
    seq(|tickets|, i requires 0 <= i < |tickets| => Resolution(handle, tickets[i], allow))
  }

  function WaitingOn(s: Loop, key: Question): seq<Ticket> {
    if key in s.waiting then s.waiting[key] else []
  }

  function AllWaiting(m: map<Question, seq<Ticket>>): set<Ticket> {
    set k, i | k in m && 0 <= i < |m[k]| :: m[k][i]
  }

  function Elements(ts: seq<Ticket>): set<Ticket> {
    set t | t in ts
  }

  /** Flushing the module behind a handle forgets what was pushed to it. */
  function Flushed(pushed: map<PushKey, Settled>, kern: Option<nat>): map<PushKey, Settled> {
    map k | k in pushed && kern != Some(k.handle) :: pushed[k]
  }

  /** Writing the file stamps it; text that is the same was not written. */
  function Wrote(disk: Disk, text: string): Disk {
    if text == disk.text then disk else Disk(text, disk.stamp + 1)
  }

  /** An edit from outside: a command, a person, another program. */
  function Edit(s: Loop, text: string): Loop {
    s.(disk := Disk(text, s.disk.stamp + 1))
  }

  // ---- the steps of a turn ----

  /** Telling the kernel about drained requests, if there is one to tell. */
  function Tell(s: Loop, tickets: seq<Ticket>, allow: bool): Loop {
    match s.kern
    case Some(h) => s.(resolved := s.resolved + ResolveAll(h, tickets, allow))
    case None => s.(abandoned := s.abandoned + Elements(tickets))
  }

  function Closed(s: Loop, key: Question, allow: bool): Loop {
    Tell(s, WaitingOn(s, key), allow).(asking := s.asking - {key}, waiting := s.waiting - {key})
  }

  /** Draining the answer to one prompt. */
  function Answered(net: AddrSyntax, s: Loop, which: nat, ans: Answer, sha: Option<string>, note: string): Loop
    requires which < |s.prompts|
  {
    var p := s.prompts[which];
    var key := KeyOf(net, p);
    var (pol1, text1) := Repin(s.pol, s.disk.text, p.exe, ans, sha);
    var (pol2, text2) := Record(net, pol1, text1, ans, Query(p.exe, p.dst, p.host, p.dport), note);
    Closed(s, key, Allows(ans)).(pol := pol2, disk := Wrote(Wrote(s.disk, text1), text2),
                                 prompts := s.prompts[..which] + s.prompts[which + 1..])
  }

  /** One prompt per question: a question already on screen raises no other. */
  function Raise(s: Loop, key: Question, p: Pending): Loop {
    if key in s.asking then s else s.(asking := s.asking + {key}, prompts := s.prompts + [p])
  }

  predicate Changed(pol: Meaning, exe: Option<string>, actual: Option<string>) {
    exe.Some? && exe.value in pol.appId && actual.Some? && actual.value != pol.appId[exe.value]
  }

  /** A changed binary has no rules: it is asked about again. */
  function Judge(pol: Meaning, q: Query, actual: Option<string>): Verdict {
    if Changed(pol, q.exe, actual) then Ask else Decide(pol, q)
  }

  function PendingFor(q: Query): Pending {
    Pending(NonEmpty(OrEmpty(q.host)), q.exe, q.dst, q.dport)
  }

  function QuestionOf(net: AddrSyntax, q: Query): Question {
    Question(OrEmpty(q.exe), AskKey(net, NonEmpty(OrEmpty(q.host)), q.dst))
  }

  /** A request that waits for the answer to its question. */
  function Held(net: AddrSyntax, s: Loop, t: Ticket, q: Query): Loop {
    var key := QuestionOf(net, q);
    Raise(s, key, PendingFor(q)).(waiting := s.waiting[key := WaitingOn(s, key) + [t]])
  }

  /** Draining one kernel request. `actual` is what the binary hashes to now. */
  function Missed(net: AddrSyntax, s: Loop, t: Ticket, path: string, dst: IpAddr, host: Option<string>, dport: Port,
                  actual: Option<string>): Loop {
    var s1 := s.(taken := s.taken + {t});
    var q := Query(Some(path), dst, host, dport);
    if path == "" then Tell(s1, [t], true)
    else
      match Judge(s.pol, q, actual)
      case Allow => Tell(s1, [t], true)
      case Deny => Tell(s1, [t], false)
      case Ask => Held(net, s1, t, q)
  }

  function Remember(s: Loop, flow: FlowKey, q: Query, v: Verdict): Loop {
    if v == Ask then s
    else
      var kept := if |s.decided| > DECIDED_CAP then map[] else s.decided;
      s.(decided := kept[flow := Settled(q, v)])
  }

  const UDP := 17
  const DNS_PORT := 53

  predicate IsDnsReply(flow: FlowKey) { flow.proto == UDP && flow.sport == DNS_PORT }

  /** Which packets are judged: outbound, and opening a TCP connection or UDP. DNS
      replies and whatever else comes from outside are let through. */
  predicate Judged(seen: Seen) {
    seen.Seen? && !IsDnsReply(seen.flow) && !seen.inbound && (seen.synOnly || seen.flow.proto == UDP)
  }

  function QueryFor(flow: FlowKey, exe: Option<string>, host: Option<string>): Query {
    Query(exe, flow.dst, host, flow.dport)
  }

  /** A settled verdict about a named binary goes to the kernel too, in enforcement. */
  function Pushing(s: Loop, flow: FlowKey, q: Query, v: Verdict): Loop {
    if v != Ask && s.mode == Enforcement && s.kern.Some? && q.exe.Some? then
      s.(pushed := s.pushed[PushKey(s.kern.value, flow.proto, q.dst, q.dport, q.exe.value) := Settled(q, v)])
    else s
  }

  /** A judged packet of a flow that is not remembered. Visibility learns what
      enforcement would ask, and takes note of the file as it has just written it. */
  function Fresh(net: AddrSyntax, s: Loop, flow: FlowKey, q: Query, actual: Option<string>, note: string): Loop {
    var v := Judge(s.pol, q, actual);
    if v != Ask then Pushing(Remember(s, flow, q, v), flow, q, v)
    else if s.mode == Enforcement then Raise(s, QuestionOf(net, q), PendingFor(q))
    else
      var (pol', text') := Record(net, s.pol, s.disk.text, AllowConn, q, note);
      var disk := Wrote(s.disk, text');
      s.(pol := pol', disk := disk, mark := disk.stamp)
  }

  /** One packet. */
  function Packet(net: AddrSyntax, s: Loop, seen: Seen, exe: Option<string>, host: Option<string>, actual: Option<string>,
                  note: string): Loop {
    if !Judged(seen) || seen.flow in s.decided then s
    else Fresh(net, s, seen.flow, QueryFor(seen.flow, exe, host), actual, note)
  }

  function FateOf(s: Loop, seen: Seen, exe: Option<string>, host: Option<string>, actual: Option<string>): Fate {
    if s.mode == Visibility || !Judged(seen) then Reinject
    else if seen.flow in s.decided then (if s.decided[seen.flow].verdict == Deny then Refuse else Reinject)
    else
      match Judge(s.pol, QueryFor(seen.flow, exe, host), actual)
      case Allow => Reinject
      case Deny => Refuse
      case Ask => Hold
  }

  /** Leaving UDP to the divert path again. */
  function TearDown(s: Loop): Loop {
    s.(hooked := if s.kern.Some? then s.hooked - {s.kern.value} else s.hooked,
       upcallOn := false, diverting := true,
       waiting := map[], abandoned := s.abandoned + AllWaiting(s.waiting))
  }

  /** A dead handle is dropped; a missing one is looked for again. */
  function CheckHandle(s: Loop, dead: bool, reopened: Option<nat>): Loop {
    if AttributionOf(s.pol) != Kernel then s
    else if s.kern.Some? then
      if dead then s.(kern := None, unloaded := s.unloaded + {s.kern.value}) else s
    else s.(kern := reopened, pushed := Flushed(s.pushed, reopened))
  }

  function Loaded(net: AddrSyntax, s: Loop, fallback: Mode): Loop {
    var pol := Load(net, s.disk.text);
    s.(pol := pol, mark := s.disk.stamp, mode := ModeOf(pol, fallback), decided := map[])
  }

  /** The upcall is taken down before its handle is replaced; a handle that is
      opened is flushed. */
  function Switched(s: Loop, was: AttributionMode, adopted: Option<nat>): Loop {
    if AttributionOf(s.pol) == was then s
    else
      var down := if s.upcallOn then TearDown(s) else s;
      var kern := if AttributionOf(s.pol) == Kernel then adopted else None;
      down.(kern := kern, pushed := Flushed(s.pushed, kern))
  }

  function Reload(net: AddrSyntax, s: Loop, fallback: Mode, adopted: Option<nat>): Loop {
    var u := Switched(Loaded(net, s, fallback), AttributionOf(s.pol), adopted);
    u.(pushed := Flushed(u.pushed, u.kern))
  }

  predicate WantsUpcall(s: Loop) { s.kern.Some? && s.mode == Enforcement }

  function Reconcile(s: Loop, readerOpens: bool): Loop {
    if WantsUpcall(s) && !s.upcallOn then
      if readerOpens then s.(hooked := s.hooked + {s.kern.value}, upcallOn := true, diverting := false) else s
    else if !WantsUpcall(s) && s.upcallOn then TearDown(s)
    else s
  }

  /** The loop has not taken note of the file's last change. */
  predicate Stale(s: Loop) { s.disk.stamp != s.mark }

  /** The once-a-second tick: the file is loaded if its stamp has moved. */
  function Tick(net: AddrSyntax, s: Loop, fallback: Mode, dead: bool, reopened: Option<nat>, adopted: Option<nat>,
                readerOpens: bool): Loop {
    var s1 := CheckHandle(s, dead, reopened);
    var s2 := if Stale(s1) then Reload(net, s1, fallback, adopted) else s1;
    Reconcile(s2, readerOpens)
  }

  /** What a signalled daemon does on its way out. */
  function Shutdown(s: Loop): Loop {
    s.(hooked := if s.kern.Some? then s.hooked - {s.kern.value} else s.hooked,
       diverting := s.diverting || s.upcallOn, pushed := Flushed(s.pushed, s.kern))
  }

  /** Before the first turn: pf diverts UDP and nothing is being asked. */
  function Start(net: AddrSyntax, fallback: Mode, text: string, handle: Option<nat>): Loop {
    var pol := Load(net, text);
    Loop(pol, 0, ModeOf(pol, fallback), if AttributionOf(pol) == Kernel then handle else None, false,
         {}, map[], map[], [], true, {}, {}, {}, [], {}, map[], Disk(text, 0))
  }

  // ---- the loop's variables, updated in place ----

  class Daemon {
    const net: AddrSyntax
    const fallback: Mode
    var pol: Meaning
    var mark: nat
    var disk: Disk
    var mode: Mode
    var kern: Option<nat>
    var upcallOn: bool
    var asking: set<Question>
    var waiting: map<Question, seq<Ticket>>
    var decided: map<FlowKey, Settled>
    ghost var prompts: seq<Pending>
    ghost var diverting: bool
    ghost var hooked: set<nat>
    ghost var unloaded: set<nat>
    ghost var taken: set<Ticket>
    ghost var resolved: seq<Resolution>
    ghost var abandoned: set<Ticket>
    ghost var pushed: map<PushKey, Settled>

    ghost function View(): Loop
      reads this
    {
      Loop(pol, mark, mode, kern, upcallOn, asking, waiting, decided,
           prompts, diverting, hooked, unloaded, taken, resolved, abandoned, pushed, disk)
    }

    constructor (net: AddrSyntax, fallback: Mode, text: string, handle: Option<nat>)
      ensures this.net == net && this.fallback == fallback
      ensures View() == Start(net, fallback, text, handle)
    {
      this.net, this.fallback := net, fallback;
      var loaded := Load(net, text);
      pol, mark, mode, disk := loaded, 0, ModeOf(loaded, fallback), Disk(text, 0);
      kern := if AttributionOf(loaded) == Kernel then handle else None;
      upcallOn, asking, waiting, decided := false, {}, map[], map[];
      prompts, diverting, hooked, unloaded, taken, resolved, abandoned, pushed := [], true, {}, {}, {}, [], {}, map[];
    }

    method ResolveOne(t: Ticket, allow: bool)
      modifies this`resolved, this`abandoned
      ensures View() == Tell(old(View()), [t], allow)
    {
      if kern.Some? {
        resolved := resolved + [Resolution(kern.value, t, allow)];
      } else {
        abandoned := abandoned + {t};
        assert {t} == Elements([t]);
      }
    }

    method ResolveEach(ids: seq<Ticket>, allow: bool)
      modifies this`resolved, this`abandoned
      ensures View() == Tell(old(View()), ids, allow)
    {
      if kern.Some? {
        var done: seq<Resolution> := [];
        for i := 0 to |ids|
          invariant done == ResolveAll(kern.value, ids[..i], allow)
        {
          done := done + [Resolution(kern.value, ids[i], allow)];
          assert ids[..i + 1][..i] == ids[..i];
        }
        assert ids[..|ids|] == ids;
        resolved := resolved + done;
      } else {
        abandoned := abandoned + Elements(ids);
      }
    }

    /** The question is closed and whatever waited on it gets the answer. */
    method CloseQuestion(key: Question, allow: bool)
      modifies this`asking, this`waiting, this`resolved, this`abandoned
      ensures View() == Closed(old(View()), key, allow)
    {
      NothingToTell(View(), allow);
      TellKeepsTheRest(View(), WaitingOn(View(), key), allow);
      hide Tell;
      if key in waiting {
        ResolveEach(waiting[key], allow);
      }
      assert key !in waiting ==> waiting - {key} == waiting;
      waiting := waiting - {key};
      asking := asking - {key};
    }

    method PinAnew(exe: Option<string>, ans: Answer, sha: Option<string>)
      modifies this`pol, this`disk
      ensures var (m, text) := Repin(old(pol), old(disk).text, exe, ans, sha);
              pol == m && disk == Wrote(old(disk), text)
    {
      hide RecordId;
      if exe.Some? && Allows(ans) {
        pol := ForgetId(pol, exe.value);
        if sha.Some? {
          var (pol', text') := RecordId(pol, disk.text, exe.value, sha.value);
          pol, disk := pol', Wrote(disk, text');
        }
      }
    }

    method DrainAnswer(ghost which: nat, p: Pending, ans: Answer, sha: Option<string>, note: string)
      requires which < |prompts| && prompts[which] == p
      modifies this
      ensures View() == Answered(net, old(View()), which, ans, sha, note)
    {
      hide Record, Repin, Closed, KeyOf, Wrote;
      ClosedKeepsTheRest(View(), KeyOf(net, p), Allows(ans));
      CloseQuestion(KeyOf(net, p), Allows(ans));
      prompts := prompts[..which] + prompts[which + 1..];
      PinAnew(p.exe, ans, sha);
      var (pol', text') := Record(net, pol, disk.text, ans, Query(p.exe, p.dst, p.host, p.dport), note);
      pol, disk := pol', Wrote(disk, text');
      WroteIt(old(disk), Repin(old(pol), old(disk).text, p.exe, ans, sha).1);
    }

    method Ask(key: Question, q: Query)
      modifies this`asking, this`prompts
      ensures View() == Raise(old(View()), key, PendingFor(q))
    {
      if key !in asking {
        asking := asking + {key};
        prompts := prompts + [PendingFor(q)];
      }
    }

    method DrainUpcall(t: Ticket, path: string, dst: IpAddr, host: Option<string>, dport: Port, actual: Option<string>)
      modifies this
      ensures View() == Missed(net, old(View()), t, path, dst, host, dport, actual)
    {
      hide Decide, Changed, Held, Tell;
      taken := taken + {t};
      if path == "" {
        ResolveOne(t, true);
        return;
      }
      var q := Query(Some(path), dst, host, dport);
      var verdict := if Changed(pol, q.exe, actual) then Verdict.Ask else Decide(pol, q);
      match verdict {
        case Allow => ResolveOne(t, true);
        case Deny => ResolveOne(t, false);
        case Ask => HoldForAnswer(t, q);
      }
    }

    method HoldForAnswer(t: Ticket, q: Query)
      modifies this`asking, this`prompts, this`waiting
      ensures View() == Held(net, old(View()), t, q)
    {
      hide QuestionOf, PendingFor;
      var key := QuestionOf(net, q);
      Ask(key, q);
      waiting := waiting[key := (if key in waiting then waiting[key] else []) + [t]];
    }

    method FlushKernel()
      modifies this`pushed
      ensures View() == old(View()).(pushed := Flushed(old(pushed), kern))
    {
      pushed := Flushed(pushed, kern);
    }

    method PushVerdict(flow: FlowKey, q: Query, verdict: Verdict)
      modifies this`pushed
      ensures View() == Pushing(old(View()), flow, q, verdict)
    {
      if verdict != Verdict.Ask && mode == Enforcement && kern.Some? && q.exe.Some? {
        pushed := pushed[PushKey(kern.value, flow.proto, q.dst, q.dport, q.exe.value) := Settled(q, verdict)];
      }
    }

    method RememberVerdict(flow: FlowKey, q: Query, verdict: Verdict)
      modifies this`decided
      ensures View() == Remember(old(View()), flow, q, verdict)
    {
      if verdict != Verdict.Ask {
        if |decided| > DECIDED_CAP {
          decided := map[];
        }
        decided := decided[flow := Settled(q, verdict)];
      }
    }

    method JudgeFresh(flow: FlowKey, q: Query, actual: Option<string>, note: string) returns (verdict: Verdict)
      modifies this
      ensures View() == Fresh(net, old(View()), flow, q, actual, note)
      ensures verdict == Judge(old(pol), q, actual)
    {
      hide Decide, Changed, Record, QuestionOf, PendingFor, Raise, Remember, Pushing;
      verdict := if Changed(pol, q.exe, actual) then Verdict.Ask else Decide(pol, q);
      if verdict != Verdict.Ask {
        RememberVerdict(flow, q, verdict);
        PushVerdict(flow, q, verdict);
      } else if mode == Enforcement {
        Ask(QuestionOf(net, q), q);
      } else {
        var (pol', text') := Record(net, pol, disk.text, AllowConn, q, note);
        pol, disk := pol', Wrote(disk, text');
        mark := disk.stamp;
      }
    }

    method SeePacket(seen: Seen, exe: Option<string>, host: Option<string>, actual: Option<string>, note: string)
      returns (fate: Fate)
      modifies this
      ensures View() == Packet(net, old(View()), seen, exe, host, actual, note)
      ensures fate == FateOf(old(View()), seen, exe, host, actual)
    {
      hide Judge, Fresh, QueryFor;
      var allow, reject := true, false;
      var enforcing := mode == Enforcement;
      if seen.Unreadable? || IsDnsReply(seen.flow) || seen.inbound { return Reinject; }
      if seen.synOnly || seen.flow.proto == UDP {
        var verdict: Verdict;
        if seen.flow in decided {
          verdict := decided[seen.flow].verdict;
          allow, reject := verdict != Deny, verdict == Deny;
        } else {
          verdict := JudgeFresh(seen.flow, QueryFor(seen.flow, exe, host), actual, note);
          allow, reject := verdict == Allow || (verdict == Verdict.Ask && !enforcing), verdict == Deny;
        }
      }
      fate := if !enforcing || allow then Reinject else if reject then Refuse else Hold;
    }

    method LeaveToDivert()
      modifies this
      ensures View() == TearDown(old(View()))
    {
      if kern.Some? {
        hooked := hooked - {kern.value};
      }
      upcallOn := false;
      abandoned := abandoned + AllWaiting(waiting);
      waiting := map[];
      diverting := true;
    }

    method PollHandle(dead: bool, reopened: Option<nat>)
      modifies this`kern, this`unloaded, this`pushed
      ensures View() == CheckHandle(old(View()), dead, reopened)
    {
      if AttributionOf(pol) == Kernel {
        if kern.Some? && dead {
          unloaded := unloaded + {kern.value};
          kern := None;
        } else if kern.None? {
          kern := reopened;
          FlushKernel();
        }
      }
    }

    method LoadPolicy()
      modifies this`pol, this`mark, this`mode, this`decided
      ensures View() == Loaded(net, old(View()), fallback)
    {
      hide Load;
      mark := disk.stamp;
      pol := Load(net, disk.text);
      mode := ModeOf(pol, fallback);
      decided := map[];
    }

    method SwitchHandle(was: AttributionMode, adopted: Option<nat>)
      modifies this
      ensures View() == Switched(old(View()), was, adopted)
    {
      hide AllWaiting, Flushed, AttributionOf;
      if AttributionOf(pol) != was {
        if upcallOn {
          LeaveToDivert();
        }
        kern := if AttributionOf(pol) == Kernel then adopted else None;
        FlushKernel();
      }
    }

    method PickUpEdit(adopted: Option<nat>)
      modifies this
      ensures View() == Reload(net, old(View()), fallback, adopted)
    {
      hide Loaded, Switched, Flushed, AttributionOf;
      var was := AttributionOf(pol);
      LoadPolicy();
      SwitchHandle(was, adopted);
      FlushKernel();
    }

    method ReconcileUpcall(readerOpens: bool)
      modifies this
      ensures View() == Reconcile(old(View()), readerOpens)
    {
      hide AllWaiting;
      var want := kern.Some? && mode == Enforcement;
      if want && !upcallOn {
        if readerOpens {
          hooked := hooked + {kern.value};
          upcallOn := true;
          diverting := false;
        }
      } else if !want && upcallOn {
        LeaveToDivert();
      }
    }

    method OnTick(dead: bool, reopened: Option<nat>, adopted: Option<nat>, readerOpens: bool)
      modifies this
      ensures View() == Tick(net, old(View()), fallback, dead, reopened, adopted, readerOpens)
    {
      hide CheckHandle, Reload, Reconcile;
      PollHandle(dead, reopened);
      if disk.stamp != mark {
        PickUpEdit(adopted);
      }
      ReconcileUpcall(readerOpens);
    }

    method OnSignal()
      modifies this
      ensures View() == Shutdown(old(View()))
    {
      if kern.Some? {
        hooked := hooked - {kern.value};
      }
      FlushKernel();
      if upcallOn {
        diverting := true;
      }
    }
  }

  lemma TellKeepsTheRest(s: Loop, tickets: seq<Ticket>, allow: bool)
    ensures var t := Tell(s, tickets, allow);
            t == s.(resolved := t.resolved, abandoned := t.abandoned)
  {
  }

  lemma ClosedKeepsTheRest(s: Loop, key: Question, allow: bool)
    ensures var u := Closed(s, key, allow);
            u == s.(asking := u.asking, waiting := u.waiting, resolved := u.resolved, abandoned := u.abandoned)
  {
  }

  lemma WroteIt(disk: Disk, text: string)
    ensures Wrote(disk, text).text == text
  {
  }

  lemma NothingToTell(s: Loop, allow: bool)
    ensures Tell(s, [], allow) == s
  {
    assert s.abandoned + Elements([]) == s.abandoned;
  }
}
