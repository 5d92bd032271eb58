/** Recording an answer keeps the policy in memory equal to the meaning of the
    file. Source: src/policy.rs, lines 119-200, 323-460, 839-847 and 1218-1343. */
module PolicyRecord {
  import opened Options
  import opened Text
  import opened Targets
  import opened Policy

  /** Text a line can carry as (the end of) a value. */
  predicate CleanText(s: string) {
    s != "" && Trimmed(s) && '#' !in s && '\n' !in s
  }

  function LowerRule(r: Rule): Rule {
    match r
    case Host(a, h, p) => Host(a, Lower(h), p)
    case HostFrom(a, e, h, p) => HostFrom(a, e, Lower(h), p)
    case _ => r
  }

  /** Which rules a file can spell. */
  predicate SpellableRule(net: AddrSyntax, r: Rule) {
    match r
    case App(_, e) => CleanText(e)
    case Host(_, h, p) => Spellable(net, h, p) && CleanText(JoinTarget(net, h, p))
    case Dest(_, a, p) => true
    case HostFrom(_, e, h, p) =>
      CleanText(e) && Spellable(net, h, p) && CleanText(JoinTarget(net, h, p)) && NoWs(JoinTarget(net, h, p))
    case DestFrom(_, e, a, p) => CleanText(e)
  }

  /** A rule's value, with the separator the writer uses before a binary. */
  function Spelled(net: AddrSyntax, r: Rule, sep: char): string {
    match r
    case App(_, e) => e
    case Host(_, h, p) => JoinTarget(net, h, p)
    case Dest(_, a, p) => JoinTarget(net, net.show(a), p)
    case HostFrom(_, e, h, p) => JoinTarget(net, h, p) + [sep] + e
    case DestFrom(_, e, a, p) => JoinTarget(net, net.show(a), p) + [sep] + e
  }

  lemma PortIsClean(p: Port)
    ensures NoWs(PrintNat(p)) && '#' !in PrintNat(p) && '\n' !in PrintNat(p)
  {
    ParsePrintU16(p);
    assert forall i :: 0 <= i < |PrintNat(p)| ==> IsDigit(PrintNat(p)[i]);
  }

  lemma JoinOfAddress(net: AddrSyntax, a: IpAddr, p: Option<Port>)
    requires Lawful(net)
    ensures var t := JoinTarget(net, net.show(a), p);
            && Spellable(net, net.show(a), p)
            && CleanText(t) && NoWs(t)
  {
    var s := net.show(a);
    AddressFacts(net, s);
    NoColonNoPort(s);
    hide Lawful, HostColonPort, LastIndexOf, PrintNat;
    if p.Some? {
      PortIsClean(p.value);
      AddressAndPort(s, PrintNat(p.value));
    }
  }

  lemma NoColonNoPort(s: string)
    ensures ':' !in s ==> !HostColonPort(s)
  {
  }

  lemma AddressAndPort(s: string, digits: string)
    requires s != "" && NoWs(s) && '#' !in s && '\n' !in s
    requires NoWs(digits) && '#' !in digits && '\n' !in digits
    ensures var t := s + [':'] + digits; CleanText(t) && NoWs(t)
    ensures var t := "[" + s + "]:" + digits; CleanText(t) && NoWs(t)
  {
    var t := s + [':'] + digits;
    assert forall i :: 0 <= i < |t| ==> t[i] == if i < |s| then s[i] else if i == |s| then ':' else digits[i - |s| - 1];
    var u := "[" + s + "]:" + digits;
    assert forall i :: 0 <= i < |u| ==>
      u[i] == if i == 0 then '[' else if i <= |s| then s[i - 1] else if i == |s| + 1 then ']' else if i == |s| + 2 then ':' else digits[i - |s| - 3];
  }

  lemma ScopedIsClean(t: string, sep: char, e: string)
    requires CleanText(t) && CleanText(e) && (sep == ' ' || sep == '\t')
    ensures CleanText(t + [sep] + e)
  {
  }

  /** Reading a spelled value gives the rule back, its host in lower case. */
  lemma SpelledMeansRule(net: AddrSyntax, r: Rule, sep: char)
    requires Lawful(net) && SpellableRule(net, r) && (sep == ' ' || sep == '\t')
    ensures RuleOf(net, r.KindOf(), Spelled(net, r, sep)) == Some(LowerRule(r))
    ensures CleanText(Spelled(net, r, sep))
  {
    hide Lawful, Spellable, CleanText, SplitTarget, JoinTarget, SplitScoped, Lower, Trimmed, NoWs;
    match r {
      case App(_, e) =>
      case Host(_, h, p) => SplitJoin(net, h, p);
      case Dest(_, a, p) => AddressComesBack(net, a, p);
      case HostFrom(_, e, h, p) =>
        SplitJoin(net, h, p);
        ScopedComesBack(JoinTarget(net, h, p), sep, e);
      case DestFrom(_, e, a, p) =>
        AddressComesBack(net, a, p);
        ScopedComesBack(JoinTarget(net, net.show(a), p), sep, e);
    }
  }

  lemma ScopedComesBack(t: string, sep: char, e: string)
    requires CleanText(t) && NoWs(t) && CleanText(e) && (sep == ' ' || sep == '\t')
    ensures SplitScoped(t + [sep] + e) == Some((t, e)) && CleanText(t + [sep] + e)
  {
    SplitScopedJoined(t, sep, e);
    ScopedIsClean(t, sep, e);
  }

  lemma AddressComesBack(net: AddrSyntax, a: IpAddr, p: Option<Port>)
    requires Lawful(net)
    ensures var t := JoinTarget(net, net.show(a), p);
            && SplitTarget(net, t) == Target(net.show(a), p) && net.parse(net.show(a)) == Some(a)
            && CleanText(t) && NoWs(t)
  {
    JoinOfAddress(net, a, p);
    SplitJoin(net, net.show(a), p);
  }

  // ---- a rule line at the end of the file ----

  function RuleLine(net: AddrSyntax, r: Rule, sep: char, comment: Option<string>): string {
    Line(KindName(r.KindOf()), Spelled(net, r, sep), comment)
  }

  lemma LineMeans(net: AddrSyntax, pad: string, key: string, value: string, comment: Option<string>)
    requires AllWs(pad) && CleanKey(key) && CleanText(value)
    ensures EffectOf(net, pad + Line(key, value, comment)) == DirectiveEffect(net, Directive(key, value))
  {
    hide Line, DirectiveEffect;
    TokensOfLine(pad, key, value, comment);
  }

  lemma RuleLineMeans(net: AddrSyntax, pad: string, r: Rule, sep: char, comment: Option<string>)
    requires Lawful(net) && SpellableRule(net, r) && (sep == ' ' || sep == '\t') && AllWs(pad)
    ensures EffectOf(net, pad + RuleLine(net, r, sep, comment)) == Insert(LowerRule(r))
  {
    hide Line, EffectOf, RuleOf, Spelled, SpellableRule, KindName, ParseKind;
    SpelledMeansRule(net, r, sep);
    ParseKindName(r.KindOf());
    KindNameIsClean(r.KindOf());
    LineMeans(net, pad, KindName(r.KindOf()), Spelled(net, r, sep), comment);
  }

  lemma LineHasNoNewline(key: string, value: string, comment: Option<string>)
    requires '\n' !in key && '\n' !in value && (comment.Some? ==> '\n' !in comment.value)
    ensures '\n' !in Line(key, value, comment)
  {
    var body := key + [' '] + value;
    assert '\n' !in body;
    if comment.Some? { assert '\n' !in "\t" && '\n' !in "#"; }
  }

  /** Appending a directive to a terminated file applies that directive. */
  lemma AppendLine(net: AddrSyntax, text: string, line: string)
    requires Terminated(text) && '\n' !in line
    ensures Load(net, text + line + "\n") == Apply(Load(net, text), EffectOf(net, line))
  {
    hide Lines, EffectOf, Apply, LoadLines, StripCr;
    LinesOfAppend(text, line);
    LoadAppend(net, Lines(text), StripCr(line));
    EffectIgnoresCr(net, line);
  }

  lemma AppendRule(net: AddrSyntax, text: string, r: Rule, sep: char, comment: Option<string>)
    requires Lawful(net) && SpellableRule(net, r) && (sep == ' ' || sep == '\t') && Terminated(text)
    requires comment.Some? ==> '\n' !in comment.value
    ensures Load(net, text + RuleLine(net, r, sep, comment) + "\n") == Apply(Load(net, text), Insert(LowerRule(r)))
  {
    hide Load, EffectOf, RuleLine, SpellableRule, Lawful, Terminated, Apply;
    RuleLineIsOneLine(net, r, sep, comment);
    AppendLine(net, text, RuleLine(net, r, sep, comment));
  }

  lemma RuleLineIsOneLine(net: AddrSyntax, r: Rule, sep: char, comment: Option<string>)
    requires Lawful(net) && SpellableRule(net, r) && (sep == ' ' || sep == '\t')
    requires comment.Some? ==> '\n' !in comment.value
    ensures '\n' !in RuleLine(net, r, sep, comment)
    ensures EffectOf(net, RuleLine(net, r, sep, comment)) == Insert(LowerRule(r))
  {
    hide EffectOf, Line, Spelled, KindName, SpellableRule, Lawful;
    SpelledMeansRule(net, r, sep);
    KindNameIsClean(r.KindOf());
    LineHasNoNewline(KindName(r.KindOf()), Spelled(net, r, sep), comment);
    RuleLineMeans(net, "", r, sep, comment);
    NoPad(RuleLine(net, r, sep, comment));
  }

  lemma NoPad(s: string)
    ensures "" + s == s
  {
  }

  // ---- recording ----

  /** A host name as a resolver would give it. */
  predicate CleanHost(h: string) {
    NoWs(h) && ':' !in h && '[' !in h && ']' !in h && '#' !in h
  }

  predicate CleanQuery(q: Query) {
    (q.exe.Some? ==> CleanText(q.exe.value)) && (Named(q.host) ==> CleanHost(q.host.value))
  }

  /** The recorded rule before its host is lowered: what the file line spells. */
  function RawRule(ans: Answer, q: Query): Option<Rule> {
    match RecordedRule(ans, q)
    case Some(HostFrom(a, e, _, p)) => Some(HostFrom(a, e, q.host.value, p))
    case Some(Host(a, _, p)) => Some(Host(a, q.host.value, p))
    case r => r
  }

  lemma CleanHostIsSpellable(net: AddrSyntax, h: string, p: Port)
    requires Lawful(net) && h != "" && CleanHost(h)
    ensures Spellable(net, h, Some(p)) && CleanText(JoinTarget(net, h, Some(p))) && NoWs(JoinTarget(net, h, Some(p)))
  {
    assert '\n' !in h;
    PortIsClean(p);
    AddressAndPort(h, PrintNat(p));
  }

  lemma RecordedLineIsRuleLine(net: AddrSyntax, ans: Answer, q: Query)
    requires Lawful(net) && CleanQuery(q) && RecordedRule(ans, q).Some?
    ensures var r := RawRule(ans, q).value;
            && SpellableRule(net, r) && LowerRule(r) == RecordedRule(ans, q).value && r.KindOf() == RecordedRule(ans, q).value.KindOf()
            && Spelled(net, r, '\t') == RecordedValue(net, ans, q)
  {
    if Named(q.host) { CleanHostIsSpellable(net, q.host.value, q.dport); }
    hide Spellable, JoinTarget, CleanText, NoWs, CleanHost, Lower, Lawful;
  }

  lemma RecordIsAppend(net: AddrSyntax, m: Meaning, text: string, ans: Answer, q: Query, note: string)
    requires Lawful(net) && CleanQuery(q) && RecordedRule(ans, q).Some?
    ensures var r := RawRule(ans, q).value;
            && SpellableRule(net, r)
            && Record(net, m, text, ans, q, note)
               == (Apply(m, Insert(LowerRule(r))), text + RuleLine(net, r, '\t', if ans.AllowApp? then None else Some(note)) + "\n")
  {
    RecordedLineIsRuleLine(net, ans, q);
    hide Line, Spelled, RecordedValue, SpellableRule, RawRule, RecordedRule, KindName, Lawful, CleanQuery;
  }

  /** Memory and file take up the same rule, whatever they were before. */
  lemma RecordBehind(net: AddrSyntax, m: Meaning, text: string, ans: Answer, q: Query, note: string)
    requires Lawful(net) && CleanQuery(q) && '\n' !in note && Terminated(text) && RecordedRule(ans, q).Some?
    ensures var (m', text') := Record(net, m, text, ans, q, note);
            var e := Insert(RecordedRule(ans, q).value);
            m' == Apply(m, e) && Load(net, text') == Apply(Load(net, text), e) && Terminated(text')
  {
    RecordIsAppend(net, m, text, ans, q, note);
    RecordedLineIsRuleLine(net, ans, q);
    hide Load, Record, RuleLine, SpellableRule, RawRule, RecordedRule, Lawful, CleanQuery, Apply, LowerRule;
    AppendRule(net, text, RawRule(ans, q).value, '\t', if ans.AllowApp? then None else Some(note));
  }

  /** The policy in memory stays the meaning of the file, for every answer, with
      or without a binary and a name, either address family and any port. */
  lemma RecordAgrees(net: AddrSyntax, text: string, ans: Answer, q: Query, note: string)
    requires Lawful(net) && CleanQuery(q) && Terminated(text) && '\n' !in note
    ensures var (m', text') := Record(net, Load(net, text), text, ans, q, note);
            Load(net, text') == m' && Terminated(text')
  {
    if RecordedRule(ans, q).Some? {
      RecordBehind(net, Load(net, text), text, ans, q, note);
      hide Load, Record, RecordedRule, Apply, Lawful;
    }
  }

  function PinLine(exe: string, sha: string): string {
    Line("app-id", sha + ['\t'] + exe, Some(" identity when approved"))
  }

  lemma AppendPin(net: AddrSyntax, text: string, exe: string, sha: string)
    requires Terminated(text) && CleanText(exe) && CleanText(sha) && NoWs(sha)
    ensures var text' := text + PinLine(exe, sha) + "\n";
            Load(net, text') == Apply(Load(net, text), PinId(exe, Lower(sha))) && Terminated(text')
  {
    PinLineMeans(net, exe, sha);
    hide Load, EffectOf, Line, CleanText;
    AppendLine(net, text, PinLine(exe, sha));
  }

  /** Pinning a binary's hash keeps the agreement. */
  lemma RecordIdAgrees(net: AddrSyntax, text: string, exe: string, sha: string)
    requires Terminated(text) && CleanText(exe) && CleanText(sha) && NoWs(sha)
    ensures var (m', text') := RecordId(Load(net, text), text, exe, sha); Load(net, text') == m' && Terminated(text')
  {
    AppendPin(net, text, exe, sha);
    hide Load, Line, CleanText, NoWs, Lower;
  }

  /** Forgetting a pin changes memory but not the file, so it agrees exactly when
      there was nothing to forget. */
  lemma ForgetIdAlone(m: Meaning, exe: string)
    ensures ForgetId(m, exe) == m <==> exe !in m.appId
  {
    if exe !in m.appId { assert m.appId - {exe} == m.appId; }
  }

  /** A file that pins /bin/a: forgetting it leaves memory and file apart. */
  lemma ForgettingAPinDisagrees(net: AddrSyntax)
    ensures var text := PinLine("/bin/a", "f00") + "\n";
            ForgetId(Load(net, text), "/bin/a") != Load(net, text)
  {
    SampleIsClean();
    hide Load, PinLine, CleanText, NoWs, Lower, Apply, ForgetId;
    var line := PinLine("/bin/a", "f00");
    AppendPin(net, "", "/bin/a", "f00");
    NoPad(line);
    PinPins(Load(net, ""), "/bin/a", "f00");
    ForgetIdAlone(Load(net, line + "\n"), "/bin/a");
  }

  lemma SampleIsClean()
    ensures CleanText("/bin/a") && CleanText("f00") && NoWs("f00") && Terminated("")
  {
  }

  lemma PinPins(m: Meaning, exe: string, sha: string)
    ensures exe in Apply(m, PinId(exe, sha)).appId && exe in Apply(m, PinId(exe, Lower(sha))).appId
  {
  }

  /** Forgetting and pinning again agrees, whatever the file pinned before. */
  lemma RepinAgrees(net: AddrSyntax, text: string, exe: string, sha: string)
    requires Terminated(text) && CleanText(exe) && CleanText(sha) && NoWs(sha)
    ensures var (m', text') := RecordId(ForgetId(Load(net, text), exe), text, exe, sha);
            && Load(net, text') == m' && Terminated(text')
            && exe in m'.appId && m'.appId[exe] == Lower(sha)
  {
    AppendPin(net, text, exe, sha);
    RepinOverwrites(Load(net, text), text, exe, sha);
    hide Load, PinLine, CleanText, NoWs, Lower, RecordId, ForgetId;
  }

  lemma RepinOverwrites(m: Meaning, text: string, exe: string, sha: string)
    ensures RecordId(ForgetId(m, exe), text, exe, sha) == (Apply(m, PinId(exe, Lower(sha))), text + PinLine(exe, sha) + "\n")
  {
    hide Line, Lower;
    assert (m.appId - {exe})[exe := Lower(sha)] == m.appId[exe := Lower(sha)];
  }

  lemma PinLineMeans(net: AddrSyntax, exe: string, sha: string)
    requires CleanText(exe) && CleanText(sha) && NoWs(sha)
    ensures var line := Line("app-id", sha + ['\t'] + exe, Some(" identity when approved"));
            '\n' !in line && EffectOf(net, line) == PinId(exe, Lower(sha))
  {
    var value := sha + ['\t'] + exe;
    var line := Line("app-id", value, Some(" identity when approved"));
    hide CleanText, CleanKey, Line, EffectOf, DirectiveEffect, SplitScoped, ParseKind, NoWs, Lower;
    PinDirective(net, exe, sha);
    LineHasNoNewlineOf(value);
    LineMeans(net, "", "app-id", value, Some(" identity when approved"));
    NoPad(line);
  }

  lemma AppIdIsNoKind()
    ensures ParseKind("app-id") == None && CleanKey("app-id")
  {
    assert "app-id"[..5][1] == 'p' && "app-id"[..4][0] == 'a';
  }

  lemma PinDirective(net: AddrSyntax, exe: string, sha: string)
    requires CleanText(exe) && CleanText(sha) && NoWs(sha)
    ensures CleanText(sha + ['\t'] + exe) && CleanKey("app-id")
    ensures DirectiveEffect(net, Directive("app-id", sha + ['\t'] + exe)) == PinId(exe, Lower(sha))
  {
    AppIdIsNoKind();
    ScopedComesBack(sha, '\t', exe);
    hide CleanText, CleanKey, SplitScoped, ParseKind, NoWs, Lower;
  }

  lemma LineHasNoNewlineOf(value: string)
    requires CleanText(value)
    ensures '\n' !in Line("app-id", value, Some(" identity when approved"))
  {
    LineHasNoNewline("app-id", value, Some(" identity when approved"));
  }
}
