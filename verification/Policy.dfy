/** What a policy file means, what the policy decides, and how an answer becomes a
    rule. The source's ten rule sets, one per rule kind, are one set of rules that
    carry their kind. Source: src/policy.rs, lines 38-460 and 1330-1343; src/main.rs,
    lines 508-519. */
module Policy {
  import opened Options
  import opened Text
  import opened Targets

  datatype Verdict = Allow | Deny | Ask
  datatype Answer = AllowConn | AllowApp | Block | BlockApp | Timeout
  datatype Mode = Visibility | Enforcement
  datatype AttributionMode = Procstat | Kernel

  datatype Shape = ToApp | ToHost | ToDest | ToHostFrom | ToDestFrom
  datatype Kind = Kind(shape: Shape, allow: bool)

  datatype Rule =
    | App(allow: bool, exe: string)
    | Host(allow: bool, host: string, port: Option<Port>)
    | Dest(allow: bool, addr: IpAddr, port: Option<Port>)
    | HostFrom(allow: bool, exe: string, host: string, port: Option<Port>)
    | DestFrom(allow: bool, exe: string, addr: IpAddr, port: Option<Port>)
  {
    function KindOf(): Kind {
      match this
      case App(a, _) => Kind(ToApp, a)
      case Host(a, _, _) => Kind(ToHost, a)
      case Dest(a, _, _) => Kind(ToDest, a)
      case HostFrom(a, _, _, _) => Kind(ToHostFrom, a)
      case DestFrom(a, _, _, _) => Kind(ToDestFrom, a)
    }
  }

  function ShapeName(s: Shape): string {
    match s
    case ToApp => "-app"
    case ToHost => "-host"
    case ToDest => "-dest"
    case ToHostFrom => "-host-from"
    case ToDestFrom => "-dest-from"
  }

  function KindName(k: Kind): string {
    (if k.allow then "allow" else "deny") + ShapeName(k.shape)
  }

  function ParseShape(s: string): (r: Option<Shape>)
    ensures r.Some? ==> ShapeName(r.value) == s
    ensures forall sh: Shape :: ShapeName(sh) == s ==> r == Some(sh)
  {
    if s == "-app" then Some(ToApp)
    else if s == "-host" then Some(ToHost)
    else if s == "-dest" then Some(ToDest)
    else if s == "-host-from" then Some(ToHostFrom)
    else if s == "-dest-from" then Some(ToDestFrom)
    else None
  }

  /** The rule kind a directive names, if it names one of the ten. */
  function ParseKind(key: string): (k: Option<Kind>)
    ensures k.Some? ==> KindName(k.value) == key
  {
    if |key| >= 5 && key[..5] == "allow" then
      (match ParseShape(key[5..]) case Some(sh) => Some(Kind(sh, true)) case None => None)
    else if |key| >= 4 && key[..4] == "deny" then
      (match ParseShape(key[4..]) case Some(sh) => Some(Kind(sh, false)) case None => None)
    else None
  }

  lemma ParseKindName(k: Kind)
    ensures ParseKind(KindName(k)) == Some(k)
  {
    var name, rest := KindName(k), ShapeName(k.shape);
    assert ParseShape(rest) == Some(k.shape);
    hide ShapeName, ParseShape;
    if k.allow {
      assert name[..5] == "allow" && name[5..] == rest;
    } else {
      assert name[..4] == "deny" && name[4..] == rest;
      assert |name| >= 5 ==> name[..5][0] == 'd';
    }
  }

  /** A directive's key: nothing that could be read as white space or a comment. */
  predicate CleanKey(key: string) {
    key != "" && NoWs(key) && '#' !in key && '\n' !in key
  }

  lemma KindNameIsClean(k: Kind)
    ensures CleanKey(KindName(k))
  {
    ShapeNameIsClean(k.shape);
    hide ShapeName;
    var a := if k.allow then "allow" else "deny";
    assert CleanKey(a);
    assert forall i :: 0 <= i < |KindName(k)| ==> KindName(k)[i] == if i < |a| then a[i] else ShapeName(k.shape)[i - |a|];
  }

  lemma ShapeNameIsClean(s: Shape)
    ensures CleanKey(ShapeName(s))
  {
  }

  datatype Meaning = Meaning(dflt: Verdict, rules: set<Rule>, prompt: Option<string>, appId: map<string, string>,
                             mode: Option<Mode>, attribution: Option<AttributionMode>)

  const NOTHING: Meaning := Meaning(Ask, {}, None, map[], None, None)

  // ---- the meaning of a file ----

  datatype Effect =
    | Nop
    | SetDefault(v: Verdict)
    | Insert(r: Rule)
    | SetPrompt(prog: string)
    | PinId(exe: string, sha: string)
    | SetMode(m: Mode)
    | SetAttribution(a: AttributionMode)

  function ParseMode(s: string): Option<Mode> {
    var l := Lower(Trim(s));
    if l == "visibility" || l == "listen" || l == "observe" then Some(Visibility)
    else if l == "enforcement" || l == "enforce" then Some(Enforcement)
    else None
  }

  function ParseAttribution(s: string): Option<AttributionMode> {
    var l := Lower(Trim(s));
    if l == "procstat" || l == "userspace" then Some(Procstat)
    else if l == "kernel" then Some(Kernel)
    else None
  }

  function HostRule(net: AddrSyntax, allow: bool, v: string): Rule {
    var t := SplitTarget(net, v);
    Host(allow, Lower(t.host), t.port)
  }

  function DestRule(net: AddrSyntax, allow: bool, v: string): Option<Rule> {
    var t := SplitTarget(net, v);
    match net.parse(t.host)
    case Some(addr) => Some(Dest(allow, addr, t.port))
    case None => None
  }

  function HostFromRule(net: AddrSyntax, allow: bool, v: string): Option<Rule> {
    match SplitScoped(v)
    case Some((d, e)) => var t := SplitTarget(net, d); Some(HostFrom(allow, e, Lower(t.host), t.port))
    case None => None
  }

  function DestFromRule(net: AddrSyntax, allow: bool, v: string): Option<Rule> {
    match SplitScoped(v)
    case Some((d, e)) =>
      var t := SplitTarget(net, d);
      (match net.parse(t.host)
       case Some(addr) => Some(DestFrom(allow, e, addr, t.port))
       case None => None)
    case None => None
  }

  function RuleOf(net: AddrSyntax, k: Kind, v: string): Option<Rule> {
    match k.shape
    case ToApp => Some(App(k.allow, v))
    case ToHost => Some(HostRule(net, k.allow, v))
    case ToDest => DestRule(net, k.allow, v)
    case ToHostFrom => HostFromRule(net, k.allow, v)
    case ToDestFrom => DestFromRule(net, k.allow, v)
  }

  function SettingOf(key: string, v: string): Effect {
    if key == "default" then
      if v == "allow" then SetDefault(Allow)
      else if v == "deny" then SetDefault(Deny)
      else if v == "ask" then SetDefault(Ask)
      else Nop
    else if key == "prompt" then SetPrompt(v)
    else if key == "app-id" then
      (match SplitScoped(v) case Some((sha, exe)) => PinId(exe, Lower(sha)) case None => Nop)
    else if key == "mode" then
      (match ParseMode(v) case Some(m) => SetMode(m) case None => Nop)
    else if key == "attribution" then
      (match ParseAttribution(v) case Some(a) => SetAttribution(a) case None => Nop)
    else Nop
  }

  function DirectiveEffect(net: AddrSyntax, d: Directive): Effect {
    match ParseKind(d.key)
    case Some(k) => (match RuleOf(net, k, d.value) case Some(r) => Insert(r) case None => Nop)
    case None => SettingOf(d.key, d.value)
  }

  function EffectOf(net: AddrSyntax, raw: string): Effect {
    match Tokens(raw)
    case Some(d) => DirectiveEffect(net, d)
    case None => Nop
  }

  function Apply(m: Meaning, e: Effect): Meaning {
    match e
    case Nop => m
    case SetDefault(v) => m.(dflt := v)
    case Insert(r) => m.(rules := m.rules + {r})
    case SetPrompt(p) => m.(prompt := Some(p))
    case PinId(exe, sha) => m.(appId := m.appId[exe := sha])
    case SetMode(mode) => m.(mode := Some(mode))
    case SetAttribution(a) => m.(attribution := Some(a))
  }

  function LoadLines(net: AddrSyntax, ls: seq<string>): Meaning {
    if ls == [] then NOTHING else Apply(LoadLines(net, ls[..|ls| - 1]), EffectOf(net, ls[|ls| - 1]))
  }

  /** The meaning of a policy file's text. */
  function Load(net: AddrSyntax, text: string): Meaning {
    LoadLines(net, Lines(text))
  }

  lemma LoadAppend(net: AddrSyntax, ls: seq<string>, l: string)
    ensures LoadLines(net, ls + [l]) == Apply(LoadLines(net, ls), EffectOf(net, l))
  {
    assert (ls + [l])[..|ls|] == ls;
  }

  lemma EffectIgnoresCr(net: AddrSyntax, l: string)
    ensures EffectOf(net, StripCr(l)) == EffectOf(net, l)
  {
    TokensIgnoreCr(l);
  }

  lemma RuleHasItsKind(net: AddrSyntax, k: Kind, v: string)
    ensures RuleOf(net, k, v).Some? ==> RuleOf(net, k, v).value.KindOf() == k
  {
    hide SplitTarget, SplitScoped, Lower;
  }

  lemma SettingIsNoRule(key: string, v: string)
    ensures !SettingOf(key, v).Insert?
  {
  }

  // ---- deciding ----

  datatype Query = Query(exe: Option<string>, dst: IpAddr, host: Option<string>, dport: Port)

  predicate PatternMatches(rule: string, hostLower: string) {
    rule == hostLower ||
    (|rule| >= 2 && rule[..2] == "*." &&
     var suffix := rule[2..];
     hostLower == suffix || EndsWith(hostLower, "." + suffix))
  }

  predicate EndsWith(s: string, suffix: string) {
    |suffix| <= |s| && s[|s| - |suffix|..] == suffix
  }

  predicate PortOk(rule: Option<Port>, dport: Port) {
    rule == None || rule == Some(dport)
  }

  /** Does a rule cover the connection asked about? */
  predicate Matches(r: Rule, q: Query) {
    match r
    case App(_, e) => q.exe == Some(e)
    case Host(_, h, p) => q.host.Some? && PortOk(p, q.dport) && PatternMatches(h, Lower(q.host.value))
    case Dest(_, a, p) => a == q.dst && PortOk(p, q.dport)
    case HostFrom(_, e, h, p) => q.exe == Some(e) && q.host.Some? && PortOk(p, q.dport) && PatternMatches(h, Lower(q.host.value))
    case DestFrom(_, e, a, p) => q.exe == Some(e) && a == q.dst && PortOk(p, q.dport)
  }

  predicate ScopedDestHit(rules: set<Rule>, allow: bool, e: string, dst: IpAddr, dport: Port) {
    exists r :: r in rules && r.DestFrom? && r.allow == allow && r.exe == e && r.addr == dst && PortOk(r.port, dport)
  }

  predicate ScopedHostHit(rules: set<Rule>, allow: bool, e: string, hostLower: string, dport: Port) {
    exists r :: r in rules && r.HostFrom? && r.allow == allow && r.exe == e && PortOk(r.port, dport) && PatternMatches(r.host, hostLower)
  }

  predicate HostHit(rules: set<Rule>, allow: bool, host: string, dport: Port) {
    exists r :: r in rules && r.Host? && r.allow == allow && PortOk(r.port, dport) && PatternMatches(r.host, Lower(host))
  }

  predicate DestHit(rules: set<Rule>, allow: bool, dst: IpAddr, dport: Port) {
    exists r :: r in rules && r.Dest? && r.allow == allow && r.addr == dst && PortOk(r.port, dport)
  }

  /** The source's chain of checks, in its order. */
  function Decide(m: Meaning, q: Query): Verdict {
    if q.exe.Some? && ScopedDestHit(m.rules, false, q.exe.value, q.dst, q.dport) then Deny
    else if q.exe.Some? && q.host.Some? && ScopedHostHit(m.rules, false, q.exe.value, Lower(q.host.value), q.dport) then Deny
    else if q.host.Some? && HostHit(m.rules, false, q.host.value, q.dport) then Deny
    else if DestHit(m.rules, false, q.dst, q.dport) then Deny
    else if q.exe.Some? && App(false, q.exe.value) in m.rules then Deny
    else if q.exe.Some? && ScopedDestHit(m.rules, true, q.exe.value, q.dst, q.dport) then Allow
    else if q.exe.Some? && q.host.Some? && ScopedHostHit(m.rules, true, q.exe.value, Lower(q.host.value), q.dport) then Allow
    else if q.exe.Some? && App(true, q.exe.value) in m.rules then Allow
    else if q.host.Some? && HostHit(m.rules, true, q.host.value, q.dport) then Allow
    else if DestHit(m.rules, true, q.dst, q.dport) then Allow
    else m.dflt
  }

  /** Some rule of the given colour covers the query. */
  ghost predicate Covered(rules: set<Rule>, allow: bool, q: Query) {
    exists r :: r in rules && r.allow == allow && Matches(r, q)
  }

  lemma CoveredByKind(rules: set<Rule>, allow: bool, q: Query)
    ensures Covered(rules, allow, q) <==>
              || (q.exe.Some? && App(allow, q.exe.value) in rules)
              || (q.host.Some? && HostHit(rules, allow, q.host.value, q.dport))
              || DestHit(rules, allow, q.dst, q.dport)
              || (q.exe.Some? && q.host.Some? && ScopedHostHit(rules, allow, q.exe.value, Lower(q.host.value), q.dport))
              || (q.exe.Some? && ScopedDestHit(rules, allow, q.exe.value, q.dst, q.dport))
  {
    hide PatternMatches, PortOk;
    if q.exe.Some? && App(allow, q.exe.value) in rules { assert Matches(App(allow, q.exe.value), q); }
    if Covered(rules, allow, q) {
      var r :| r in rules && r.allow == allow && Matches(r, q);
      match r {
        case App(_, e) => assert r == App(allow, q.exe.value);
        case _ =>
      }
    }
  }

  /** Any matching deny, else any matching allow, else the default. */
  lemma DecideIsDeclarative(m: Meaning, q: Query)
    ensures Decide(m, q) == if Covered(m.rules, false, q) then Deny
                            else if Covered(m.rules, true, q) then Allow
                            else m.dflt
  {
    hide Covered, HostHit, DestHit, ScopedHostHit, ScopedDestHit;
    CoveredByKind(m.rules, false, q);
    CoveredByKind(m.rules, true, q);
  }

  // ---- recording ----

  predicate Named(host: Option<string>) {
    host.Some? && host.value != "" && host.value != "-"
  }

  /** The rule an answer puts into the policy, if any. */
  function RecordedRule(ans: Answer, q: Query): Option<Rule> {
    match ans
    case Timeout => None
    case AllowApp => if q.exe.Some? then Some(App(true, q.exe.value)) else None
    case BlockApp => if q.exe.Some? then Some(App(false, q.exe.value)) else None
    case _ =>
      var allow, port := ans.AllowConn?, Some(q.dport);
      if q.exe.Some? then
        if Named(q.host) then Some(HostFrom(allow, q.exe.value, Lower(q.host.value), port))
        else Some(DestFrom(allow, q.exe.value, q.dst, port))
      else
        if Named(q.host) then Some(Host(allow, Lower(q.host.value), port))
        else Some(Dest(allow, q.dst, port))
  }

  /** The value written for it: the host as it was seen, not lowered. */
  function RecordedValue(net: AddrSyntax, ans: Answer, q: Query): string {
    if ans.AllowApp? || ans.BlockApp? then (if q.exe.Some? then q.exe.value else "")
    else
      var target := JoinTarget(net, if Named(q.host) then q.host.value else net.show(q.dst), Some(q.dport));
      if q.exe.Some? then target + ['\t'] + q.exe.value else target
  }

  /** Record an answer in memory and at the end of the file, with the note that
      says where it came from behind every rule but an allow-app. */
  function Record(net: AddrSyntax, m: Meaning, text: string, ans: Answer, q: Query, note: string): (Meaning, string) {
    match RecordedRule(ans, q)
    case None => (m, text)
    case Some(r) =>
      (m.(rules := m.rules + {r}),
       text + Line(KindName(r.KindOf()), RecordedValue(net, ans, q), if ans.AllowApp? then None else Some(note)) + "\n")
  }

  function RecordId(m: Meaning, text: string, exe: string, sha: string): (Meaning, string) {
    if exe in m.appId then (m, text)
    else (m.(appId := m.appId[exe := Lower(sha)]),
          text + Line("app-id", sha + ['\t'] + exe, Some(" identity when approved")) + "\n")
  }

  function ForgetId(m: Meaning, exe: string): Meaning {
    m.(appId := m.appId - {exe})
  }

  predicate Allows(a: Answer) { a == AllowConn || a == AllowApp }

  /** Approving an attributed connection pins the binary as it is now. */
  function Repin(m: Meaning, text: string, exe: Option<string>, ans: Answer, sha: Option<string>): (Meaning, string) {
    if exe.Some? && Allows(ans) then
      var forgot := ForgetId(m, exe.value);
      if sha.Some? then RecordId(forgot, text, exe.value, sha.value) else (forgot, text)
    else (m, text)
  }

  // ---- recording and deciding ----

  /** An allow record leaves every explicit deny and every allow as it was; a
      block record leaves every deny as it was; neither changes a query its rule
      does not match. */
  lemma RecordIsMonotone(net: AddrSyntax, m: Meaning, text: string, ans: Answer, q: Query, note: string, q2: Query)
    ensures var m' := Record(net, m, text, ans, q, note).0;
            && (ans.AllowConn? || ans.AllowApp? ==>
                  && (Covered(m.rules, false, q2) ==> Decide(m', q2) == Deny)
                  && (Decide(m, q2) == Allow ==> Decide(m', q2) == Allow))
            && (ans.Block? || ans.BlockApp? ==> (Decide(m, q2) == Deny ==> Decide(m', q2) == Deny))
            && (RecordedRule(ans, q).None? || !Matches(RecordedRule(ans, q).value, q2) ==> Decide(m', q2) == Decide(m, q2))
  {
    hide Decide, Matches, Line, RecordedValue;
    var m' := Record(net, m, text, ans, q, note).0;
    DecideIsDeclarative(m, q2);
    DecideIsDeclarative(m', q2);
    if RecordedRule(ans, q).Some? {
      var r := RecordedRule(ans, q).value;
      CoveredByOneMore(m.rules, r, true, q2);
      CoveredByOneMore(m.rules, r, false, q2);
    }
  }

  lemma CoveredByOneMore(rules: set<Rule>, r: Rule, allow: bool, q: Query)
    ensures Covered(rules + {r}, allow, q) <==> Covered(rules, allow, q) || (r.allow == allow && Matches(r, q))
  {
    hide Matches;
    if r.allow == allow && Matches(r, q) { assert r in rules + {r}; }
    if Covered(rules, allow, q) {
      var x :| x in rules && x.allow == allow && Matches(x, q);
      assert x in rules + {r};
    }
  }

  /** A recordable answer to an open question settles that question its way. */
  lemma RecordSettlesTheQuestion(net: AddrSyntax, m: Meaning, text: string, ans: Answer, q: Query, note: string)
    requires Decide(m, q) == Ask && RecordedRule(ans, q).Some?
    ensures Decide(Record(net, m, text, ans, q, note).0, q) == if ans.AllowConn? || ans.AllowApp? then Allow else Deny
  {
    var r := RecordedRule(ans, q).value;
    assert Matches(r, q);
    hide Decide, Matches, Line, RecordedValue;
    DecideIsDeclarative(m, q);
    DecideIsDeclarative(Record(net, m, text, ans, q, note).0, q);
    CoveredByOneMore(m.rules, r, true, q);
    CoveredByOneMore(m.rules, r, false, q);
  }

  /** Learning changes a settled verdict exactly when that verdict was the default
      deny and the learned rule covers the query: with any other default a
      verdict once settled stays. */
  lemma LearningKeepsSettledVerdicts(net: AddrSyntax, m: Meaning, text: string, q: Query, note: string, q2: Query)
    requires Decide(m, q2) != Ask
    ensures Decide(Record(net, m, text, AllowConn, q, note).0, q2) == Decide(m, q2)
            <==> !(m.dflt == Deny && !Covered(m.rules, false, q2) && !Covered(m.rules, true, q2)
                   && Matches(RecordedRule(AllowConn, q).value, q2))
  {
    hide Decide, Matches, Line, RecordedValue;
    var r := RecordedRule(AllowConn, q).value;
    DecideIsDeclarative(m, q2);
    DecideIsDeclarative(Record(net, m, text, AllowConn, q, note).0, q2);
    CoveredByOneMore(m.rules, r, true, q2);
    CoveredByOneMore(m.rules, r, false, q2);
  }
}
