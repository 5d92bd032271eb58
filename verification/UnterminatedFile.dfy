/** What recording does to a policy file whose last line lacks its newline: the
    new line is glued to the last one, so a new rule reaches the file exactly when
    that last line is blank. Source: src/policy.rs, lines 448-459. */
module UnterminatedFile {
  import opened Options
  import opened Text
  import opened Targets
  import opened Policy
  import opened PolicyRecord

  /** A file as its terminated part and its last, unterminated line. */
  ghost predicate EndsInside(text: string, pre: string, last: string) {
    text == pre + last && Terminated(pre) && last != "" && '\n' !in last
  }

  lemma {:induction false} TrimStartOfNonBlank(l: string, rest: string)
    requires !AllWs(l)
    ensures TrimStart(l + rest) == TrimStart(l) + rest && TrimStart(l) != ""
    decreases |l|
  {
    assert (l + rest)[0] == l[0];
    if IsWs(l[0]) {
      assert (l + rest)[1..] == l[1..] + rest;
      assert !AllWs(l[1..]);
      TrimStartOfNonBlank(l[1..], rest);
    }
  }

  lemma TrimOfGlued(l: string, body: string, post: string)
    requires !AllWs(l) && Trimmed(body) && body != "" && AllWs(post)
    ensures Trim(l + body + post) == TrimStart(l) + body && Trimmed(TrimStart(l) + body)
  {
    var t := TrimStart(l);
    Reassociate(l, body, post);
    Reassociate(t, body, post);
    TrimStartOfNonBlank(l, body + post);
    TrimmedConcat(t, body);
    hide AllWs, TrimStart, Trimmed;
    TrimEndPadded(t + body, post);
    TrimIsBoth(l + body + post);
    TrimEndOfTrimmed(t + body);
  }

  lemma TrimmedConcat(a: string, b: string)
    requires a != "" && !IsWs(a[0]) && Trimmed(b) && b != ""
    ensures Trimmed(a + b)
  {
    assert (a + b)[|a + b| - 1] == b[|b| - 1];
  }

  lemma TrimIsBoth(s: string)
    ensures Trim(s) == TrimEnd(TrimStart(s))
  {
  }

  lemma TrimEndOfTrimmed(s: string)
    requires Trimmed(s)
    ensures TrimEnd(s) == s
  {
  }

  lemma Reassociate(a: string, b: string, c: string)
    ensures a + b + c == a + (b + c)
  {
  }

  lemma BeforeHashOfGlued(l: string, body: string, comment: Option<string>)
    requires '#' !in l && '#' !in body
    ensures BeforeHash(l + Commented(body, comment)) == l + body + (if comment.None? then "" else "\t")
  {
    hide BeforeHash;
    if comment.None? {
      assert l + body == l + body + "";
      BeforeHashAppend(l + body, "");
    } else {
      PadLine(l, body, comment.value);
      assert '#' !in l + body + "\t";
      BeforeHashAppend(l + body + "\t", comment.value);
    }
  }

  lemma TokensOfGlued(l: string, body: string, comment: Option<string>)
    requires !AllWs(l) && '#' !in l && Trimmed(body) && body != "" && '#' !in body
    ensures Trimmed(TrimStart(l) + body) && Tokens(l + Commented(body, comment)) == Some(Split(TrimStart(l) + body))
  {
    hide BeforeHash, Commented, Split, Trim;
    BeforeHashOfGlued(l, body, comment);
    TrimOfGlued(l, body, if comment.None? then "" else "\t");
  }

  lemma TokensOfCommented(l: string, rest: string)
    requires '#' in l
    ensures Tokens(l + rest) == Tokens(l)
  {
    hide Trim, Split;
    var i := IndexOf(l, '#');
    assert l == l[..i] + "#" + l[i + 1..];
    assert l + rest == l[..i] + "#" + (l[i + 1..] + rest);
    BeforeHashAppend(l[..i], l[i + 1..]);
    BeforeHashAppend(l[..i], l[i + 1..] + rest);
  }

  /** A text with a space inside is never read as a host without white space and a port. */
  lemma SpaceSpoilsTarget(net: AddrSyntax, a: string, b: string)
    requires Lawful(net) && Trimmed(a + [' '] + b) && a != ""
    ensures var t := SplitTarget(net, a + [' '] + b); t.port == None || !NoWs(t.host)
  {
    var s := a + [' '] + b;
    assert s[|a|] == ' ';
    if Bracketed(s) {
      SpaceInBrackets(s, |a|);
    } else if IsV6(net, s) {
    } else if HostColonPort(s) {
      SpaceBeforePort(s, |a|);
    }
  }

  lemma SpaceInBrackets(s: string, w: nat)
    requires Bracketed(s) && 0 < w < |s| && s[w] == ' '
    ensures SplitBracketed(s).port == None || !NoWs(SplitBracketed(s).host)
  {
    var rest := s[1..];
    var close := IndexOf(rest, ']');
    assert rest[w - 1] == ' ';
    if close > w - 1 {
      assert rest[..close][w - 1] == ' ';
    } else {
      var after := rest[close + 1..];
      assert after[w - 2 - close] == ' ';
      if after[0] == ':' {
        assert after[1..][w - 3 - close] == ' ';
        assert ' ' in after[1..];
      }
    }
  }

  lemma NoSpaceInPort(t: string)
    requires ParseU16(t).Some?
    ensures forall j :: 0 <= j < |t| ==> t[j] != ' '
  {
    hide ParseU16;
    assert forall j :: 0 <= j < |t| ==> t[j] in t;
  }

  lemma SpaceBeforePort(s: string, w: nat)
    requires HostColonPort(s) && w < |s| && s[w] == ' '
    ensures !NoWs(s[..LastIndexOf(s, ':')])
  {
    hide ParseU16, LastIndexOf, NoWs;
    SpaceBefore(s, LastIndexOf(s, ':'), w);
  }

  lemma SpaceBefore(s: string, i: nat, w: nat)
    requires i < |s| && s[i] == ':' && ParseU16(s[i + 1..]).Some? && w < |s| && s[w] == ' '
    ensures !NoWs(s[..i])
  {
    NoSpaceInPort(s[i + 1..]);
    hide ParseU16;
    assert forall j :: i < j < |s| ==> s[j] == s[i + 1..][j - i - 1];
    assert w < i;
    assert s[..i][w] == ' ';
  }

  /** A value with more text and a space in front of it does not mean the same rule. */
  lemma LongerValueIsAnotherRule(net: AddrSyntax, r: Rule, front: string, value: string)
    requires Lawful(net) && RuleOf(net, r.KindOf(), value) == Some(r)
    requires front != "" && !IsWs(front[0]) && value != "" && Trimmed(value)
    requires r.Host? ==> NoWs(r.host)
    requires r.Host? || r.Dest? ==> r.port.Some?
    ensures RuleOf(net, r.KindOf(), front + [' '] + value) != Some(r)
  {
    var v := front + [' '] + value;
    TrimmedLonger(front, value);
    hide Lawful, SplitTarget, Lower, Trimmed, NoWs, SplitScoped;
    match r {
      case App(_, e) => assert |v| > |value|;
      case Host(_, h, p) => LongerHost(net, front, value, h);
      case Dest(_, a, p) => LongerAddress(net, front, value);
      case HostFrom(_, e, h, p) => LongerScopedExe(front, value, e);
      case DestFrom(_, e, a, p) => LongerScopedExe(front, value, e);
    }
  }

  lemma TrimmedLonger(front: string, value: string)
    requires front != "" && !IsWs(front[0]) && value != "" && Trimmed(value)
    ensures Trimmed(front + [' '] + value)
  {
    var v := front + [' '] + value;
    assert v[0] == front[0] && v[|v| - 1] == value[|value| - 1];
  }

  lemma LongerHost(net: AddrSyntax, front: string, value: string, h: string)
    requires Lawful(net) && front != "" && Trimmed(front + [' '] + value) && NoWs(h)
    ensures var t := SplitTarget(net, front + [' '] + value); t.port.Some? ==> Lower(t.host) != h
  {
    hide Lawful, SplitTarget, Lower, Trimmed, NoWs;
    SpaceSpoilsTarget(net, front, value);
    var raw := SplitTarget(net, front + [' '] + value).host;
    if Lower(raw) == h { LowerHasNoWs(raw, h); }
  }

  lemma LongerAddress(net: AddrSyntax, front: string, value: string)
    requires Lawful(net) && front != "" && Trimmed(front + [' '] + value)
    ensures var t := SplitTarget(net, front + [' '] + value); t.port.Some? ==> net.parse(t.host).None?
  {
    hide Lawful, SplitTarget, Trimmed, NoWs;
    SpaceSpoilsTarget(net, front, value);
    var host := SplitTarget(net, front + [' '] + value).host;
    if net.parse(host).Some? { AddressFacts(net, host); }
  }

  lemma LowerHasNoWs(raw: string, h: string)
    requires Lower(raw) == h && NoWs(h)
    ensures NoWs(raw)
  {
    forall i | 0 <= i < |raw| ensures !IsWs(raw[i]) {
      assert !IsWs(h[i]);
    }
  }

  lemma LongerScopedExe(front: string, value: string, e: string)
    requires SplitScoped(value).Some? && SplitScoped(value).value.1 == e
    requires front != "" && !IsWs(front[0]) && value != "" && Trimmed(value)
    ensures SplitScoped(front + [' '] + value).Some? ==> |SplitScoped(front + [' '] + value).value.1| > |e|
  {
    hide *;
    var v := front + [' '] + value;
    ScopedExeIsShorter(value);
    SpaceBehind(front, value);
    FirstWsBound(v, |front|);
    var i := FirstWs(v);
    SuffixOfGlued(front, value, i);
    TrimKeepsSuffix(v[i + 1..][..|front| - i], value);
    ScopedExe(v);
  }

  lemma SpaceBehind(front: string, value: string)
    ensures (front + [' '] + value)[|front|] == ' ' && IsWs(' ')
  {
  }

  lemma ScopedExe(v: string)
    ensures SplitScoped(v).Some? ==> FirstWs(v) < |v| && SplitScoped(v).value.1 == Trim(v[FirstWs(v) + 1..])
  {
  }

  lemma ScopedExeIsShorter(v: string)
    ensures SplitScoped(v).Some? ==> |SplitScoped(v).value.1| < |v|
  {
    if FirstWs(v) < |v| { TrimIsNoLonger(v[FirstWs(v) + 1..]); }
  }

  lemma {:induction false} FirstWsBound(v: string, w: nat)
    requires w < |v| && IsWs(v[w])
    ensures FirstWs(v) <= w
  {
    if w > 0 && !IsWs(v[0]) { FirstWsBound(v[1..], w - 1); }
  }

  lemma SuffixOfGlued(front: string, value: string, i: nat)
    requires i <= |front|
    ensures var v := front + [' '] + value; |front| - i <= |v[i + 1..]| && v[i + 1..] == v[i + 1..][..|front| - i] + value
  {
  }

  lemma TrimIsNoLonger(s: string)
    ensures |Trim(s)| <= |s|
  {
  }

  lemma TrimKeepsSuffix(a: string, b: string)
    requires Trimmed(b) && b != ""
    ensures |Trim(a + b)| >= |b|
  {
    assert (a + b)[|a + b| - 1] == b[|b| - 1];
    if AllWs(a) {
      TrimPadded(a, b, "");
      assert a + b + "" == a + b;
    } else {
      TrimOfGlued(a, b, "");
      assert a + b + "" == a + b;
    }
  }

  // ---- the glued line ----

  lemma TrimOfFronted(l: string, value: string)
    requires !AllWs(l) && value != "" && Trimmed(value)
    ensures Trim(l + ([' '] + value)) == TrimStart(l) + ([' '] + value)
  {
    var rest := [' '] + value;
    TrimStartOfNonBlank(l, rest);
    assert rest[|rest| - 1] == value[|value| - 1];
    LastOfConcat(TrimStart(l), rest);
    hide TrimStart, AllWs;
  }

  lemma LastOfConcat(a: string, b: string)
    requires b != ""
    ensures (a + b)[|a + b| - 1] == b[|b| - 1]
  {
  }

  lemma TrimOfLongerValue(x: string, key: string, value: string)
    requires CleanKey(key) && value != "" && Trimmed(value)
    ensures var front := TrimStart(x + key);
            && Trim(x + (key + [' '] + value)) == front + [' '] + value
            && front != "" && !IsWs(front[0])
  {
    LastOfConcat(x, key);
    assert !AllWs(x + key);
    hide AllWs, TrimStart, Trim;
    LongerParts(x, key, value);
    TrimOfFronted(x + key, value);
    TrimStartOfNonBlank(x + key, "");
    Reassociate(TrimStart(x + key), [' '], value);
  }

  lemma LongerParts(x: string, key: string, value: string)
    ensures x + (key + [' '] + value) == (x + key) + ([' '] + value)
  {
  }

  /** Where the first white space of a glued text is: in the old line, or right
      behind the glued key. */
  lemma FirstWsOfGlued(l: string, key: string, value: string)
    requires NoWs(key)
    ensures var w := FirstWs(l + (key + [' '] + value)); w < |l| || w == |l| + |key|
  {
    var s := l + (key + [' '] + value);
    var m := |l| + |key|;
    assert s[m] == ' ';
    FirstWsBound(s, m);
    assert forall j :: |l| <= j < m ==> s[j] == key[j - |l|] && !IsWs(s[j]);
  }

  lemma DropInside(l: string, rest: string, w: nat)
    requires w < |l|
    ensures (l + rest)[w + 1..] == l[w + 1..] + rest
  {
  }

  /** The two ways a glued line splits: the key runs on, or the value does. */
  lemma SplitOfGlued(l: string, key: string, value: string)
    requires l != "" && !IsWs(l[0]) && CleanKey(key) && value != "" && Trimmed(value)
    requires Trimmed(l + (key + [' '] + value))
    ensures var d := Split(l + (key + [' '] + value));
            |d.key| > |key| || exists front :: front != "" && !IsWs(front[0]) && d.value == front + [' '] + value
  {
    var s := l + (key + [' '] + value);
    FirstWsOfGlued(l, key, value);
    var w := FirstWs(s);
    hide FirstWs, Trim, TrimStart, Trimmed, CleanKey;
    if w < |l| {
      DropInside(l, key + [' '] + value, w);
      TrimOfLongerValue(l[w + 1..], key, value);
      assert Split(s).value == TrimStart(l[w + 1..] + key) + [' '] + value;
    }
  }

  lemma DirectiveIsNotTheRule(net: AddrSyntax, d: Directive, lr: Rule, key: string, value: string)
    requires Lawful(net) && key == KindName(lr.KindOf()) && RuleOf(net, lr.KindOf(), value) == Some(lr)
    requires lr.Host? ==> NoWs(lr.host)
    requires lr.Host? || lr.Dest? ==> lr.port.Some?
    requires value != "" && Trimmed(value)
    requires |d.key| > |key| || exists front :: front != "" && !IsWs(front[0]) && d.value == front + [' '] + value
    ensures DirectiveEffect(net, d) != Insert(lr)
  {
    hide Lawful, KindName, RuleOf, ParseKind, Trimmed, NoWs, SettingOf;
    if ParseKind(d.key).Some? {
      RuleHasItsKind(net, ParseKind(d.key).value, d.value);
      if ParseKind(d.key).value == lr.KindOf() {
        var front :| front != "" && !IsWs(front[0]) && d.value == front + [' '] + value;
        LongerValueIsAnotherRule(net, lr, front, value);
      }
    } else {
      SettingIsNoRule(d.key, d.value);
    }
  }

  /** A rule's line glued behind text is not that rule's line any more. */
  lemma GluedLineIsNotTheRule(net: AddrSyntax, last: string, r: Rule, sep: char, comment: Option<string>)
    requires Lawful(net) && SpellableRule(net, r) && (sep == ' ' || sep == '\t') && !AllWs(last) && '#' !in last
    requires LowerRule(r).Host? ==> NoWs(LowerRule(r).host)
    requires r.Host? || r.Dest? ==> r.port.Some?
    ensures EffectOf(net, last + RuleLine(net, r, sep, comment)) != Insert(LowerRule(r))
  {
    var key, value := KindName(r.KindOf()), Spelled(net, r, sep);
    var lr := LowerRule(r);
    SpelledMeansRule(net, r, sep);
    KindNameIsClean(r.KindOf());
    BodyIsClean(key, value);
    TrimStartOfNonBlank(last, "");
    assert lr.KindOf() == r.KindOf();
    hide Lawful, SpellableRule, Spelled, KindName, DirectiveEffect, RuleOf, Commented, Split, TrimStart, LowerRule, Rule.KindOf, CleanKey, CleanText, Trimmed;
    TokensOfGlued(last, key + [' '] + value, comment);
    CleanTextIsTrimmed(value);
    SplitOfGlued(TrimStart(last), key, value);
    DirectiveIsNotTheRule(net, Split(TrimStart(last) + (key + [' '] + value)), lr, key, value);
  }

  lemma CleanTextIsTrimmed(s: string)
    requires CleanText(s)
    ensures s != "" && Trimmed(s)
  {
  }

  lemma BodyIsClean(key: string, value: string)
    requires CleanKey(key) && CleanText(value)
    ensures var body := key + [' '] + value; Trimmed(body) && body != "" && '#' !in body
  {
  }

  lemma RecordedHostHasNoWs(ans: Answer, q: Query)
    requires CleanQuery(q) && RecordedRule(ans, q).Some?
    ensures var r := RecordedRule(ans, q).value;
            && (r.Host? ==> NoWs(r.host))
            && (r.Host? || r.Dest? ==> r.port.Some?)
  {
    if Named(q.host) {
      forall i | 0 <= i < |q.host.value| ensures !IsWs(Lower(q.host.value)[i]) {
        assert !IsWs(q.host.value[i]);
      }
    }
  }

  lemma BlankLineIsNop(net: AddrSyntax, l: string)
    requires AllWs(l)
    ensures EffectOf(net, l) == Nop
  {
    NoHashInWs(l);
    BeforeHashAppend(l, "");
    TrimPadded(l, "", "");
    assert l + "" + "" == l;
  }

  /** The meanings before and after the append, in terms of the terminated part. */
  lemma GluedFile(net: AddrSyntax, pre: string, last: string, line: string)
    requires Terminated(pre) && last != "" && '\n' !in last && '\n' !in line
    ensures Load(net, pre + last) == Apply(Load(net, pre), EffectOf(net, last))
    ensures Load(net, (pre + last) + line + "\n") == Apply(Load(net, pre), EffectOf(net, last + line))
  {
    hide EffectOf, Apply, Lines, LoadLines;
    LinesWithLast(pre, last);
    LoadAppend(net, Lines(pre), last);
    Reassociate(pre, last, line);
    NoNewlineInGlued(last, line);
    hide Load;
    AppendLine(net, pre, last + line);
  }

  lemma NoNewlineInGlued(a: string, b: string)
    requires '\n' !in a && '\n' !in b
    ensures '\n' !in a + b
  {
  }

  lemma {:induction false} LinesWithLast(pre: string, last: string)
    requires Terminated(pre) && last != "" && '\n' !in last
    ensures Lines(pre + last) == Lines(pre) + [last]
    decreases |pre|
  {
    if pre == "" {
      assert pre + last == last;
      assert IndexOf(last, '\n') == |last|;
    } else {
      assert pre[|pre| - 1] in pre;
      var i := IndexOf(pre, '\n');
      var l, rest := pre[..i], pre[i + 1..];
      hide *;
      CutAt(pre, i);
      GlueInside(l, rest, last);
      LinesOfFirst(l, rest);
      LinesOfFirst(l, rest + last);
      LinesWithLast(rest, last);
    }
  }

  lemma GlueInside(l: string, rest: string, last: string)
    ensures (l + "\n" + rest) + last == l + "\n" + (rest + last)
  {
  }

  /** What a line says is said by the lines before it already. */
  predicate SaidAlready(m: Meaning, e: Effect) {
    Apply(m, e) == m
  }

  /** Two lines at the end of a file come to the same exactly when they say the
      same, or the lines before say both already. */
  lemma EffectsAgree(m: Meaning, e: Effect, e': Effect)
    ensures Apply(m, e) == Apply(m, e') <==> e == e' || (SaidAlready(m, e) && SaidAlready(m, e'))
  {
    if Apply(m, e) == Apply(m, e') && e != e' {
      match e {
        case Insert(r) => InsertsAgree(m, r, e');
        case PinId(exe, sha) => PinsAgree(m, exe, sha, e');
        case _ =>
          if e'.Insert? { InsertsAgree(m, e'.r, e); }
          if e'.PinId? { PinsAgree(m, e'.exe, e'.sha, e); }
      }
    }
  }

  lemma InsertsAgree(m: Meaning, r: Rule, e: Effect)
    requires Apply(m, Insert(r)) == Apply(m, e) && e != Insert(r)
    ensures SaidAlready(m, Insert(r)) && SaidAlready(m, e)
  {
    assert r in Apply(m, e).rules;
    assert m.rules + {r} == m.rules;
  }

  lemma PinsAgree(m: Meaning, exe: string, sha: string, e: Effect)
    requires Apply(m, PinId(exe, sha)) == Apply(m, e) && e != PinId(exe, sha)
    ensures SaidAlready(m, PinId(exe, sha)) && SaidAlready(m, e)
  {
    assert exe in Apply(m, e).appId && Apply(m, e).appId[exe] == sha;
    assert exe in m.appId && m.appId[exe] == sha;
    assert m.appId[exe := sha] == m.appId;
  }

  /** With the new line glued to it, the last line says what it said, or the
      terminated lines say both already. */
  predicate LastLineIsSpared(net: AddrSyntax, pre: string, last: string, line: string) {
    var m, e, e' := Load(net, pre), EffectOf(net, last), EffectOf(net, last + line);
    e == e' || (SaidAlready(m, e) && SaidAlready(m, e'))
  }

  lemma OneMoreRule(m: Meaning, e: Effect, e': Effect, r: Rule)
    requires e' == Insert(r) ==> e == Nop || e == e'
    ensures Apply(m, e') == Apply(Apply(m, e), Insert(r))
            <==> (e == Nop && e' == Insert(r)) || (r in Apply(m, e).rules && Apply(m, e') == Apply(m, e))
    ensures r in Apply(m, e).rules && r !in m.rules && e' != Insert(r) ==> Apply(m, e') != Apply(m, e)
  {
    if r in Apply(m, e).rules {
      assert Apply(m, e).rules + {r} == Apply(m, e).rules;
    } else {
      assert r in Apply(Apply(m, e), Insert(r)).rules;
    }
  }

  lemma GluedEffect(net: AddrSyntax, last: string, ans: Answer, q: Query, comment: Option<string>)
    requires Lawful(net) && CleanQuery(q) && RecordedRule(ans, q).Some?
    ensures var e, e' := EffectOf(net, last), EffectOf(net, last + RuleLine(net, RawRule(ans, q).value, '\t', comment));
            && (AllWs(last) ==> e == Nop && e' == Insert(RecordedRule(ans, q).value))
            && ('#' in last ==> e' == e)
            && (!AllWs(last) && '#' !in last ==> e' != Insert(RecordedRule(ans, q).value))
  {
    var r := RawRule(ans, q).value;
    RecordedLineIsRuleLine(net, ans, q);
    RecordedHostHasNoWs(ans, q);
    WsHasNoHash(last);
    hide EffectOf, RuleLine, SpellableRule, RecordedRule, LowerRule, AllWs, Lawful, CleanQuery;
    if AllWs(last) {
      RuleLineMeans(net, last, r, '\t', comment);
      BlankLineIsNop(net, last);
    } else if '#' in last {
      CommentSwallows(net, last, RuleLine(net, r, '\t', comment));
    } else {
      GluedLineIsNotTheRule(net, last, r, '\t', comment);
    }
  }

  lemma WsHasNoHash(l: string)
    ensures AllWs(l) ==> '#' !in l
  {
  }

  lemma CommentSwallows(net: AddrSyntax, last: string, line: string)
    requires '#' in last
    ensures EffectOf(net, last + line) == EffectOf(net, last)
  {
    hide DirectiveEffect, Tokens;
    TokensOfCommented(last, line);
  }

  /** Recording into a file whose last line lacks its newline. Memory and file
      still agree exactly when that last line is blank, or the file already has
      the rule and its last line is spared. A line with a comment always is; one
      that alone had the rule never. */
  lemma RecordIntoUnterminatedFile(net: AddrSyntax, text: string, pre: string, last: string, ans: Answer, q: Query, note: string)
    requires Lawful(net) && CleanQuery(q) && '\n' !in note && EndsInside(text, pre, last) && RecordedRule(ans, q).Some?
    ensures var (m', text') := Record(net, Load(net, text), text, ans, q, note);
            var line := RuleLine(net, RawRule(ans, q).value, '\t', if ans.AllowApp? then None else Some(note));
            && (Load(net, text') == m' <==>
                  || AllWs(last)
                  || (RecordedRule(ans, q).value in Load(net, text).rules && LastLineIsSpared(net, pre, last, line)))
            && ('#' in last ==> LastLineIsSpared(net, pre, last, line))
            && (LastLineIsSpared(net, pre, last, line) ==>
                  '#' in last || RecordedRule(ans, q).value !in Load(net, text).rules - Load(net, pre).rules)
  {
    var r, lr := RawRule(ans, q).value, RecordedRule(ans, q).value;
    var comment := if ans.AllowApp? then None else Some(note);
    RecordedLineIsRuleLine(net, ans, q);
    RecordIsAppend(net, Load(net, text), text, ans, q, note);
    hide Load, EffectOf, RuleLine, SpellableRule, RawRule, RecordedRule, Record, AllWs, Lawful, CleanQuery, LowerRule;
    RuleLineIsOneLine(net, r, '\t', comment);
    GluedEffect(net, last, ans, q, comment);
    GluedRule(net, pre, last, RuleLine(net, r, '\t', comment), lr);
    hide Apply, LastLineIsSpared;
  }

  lemma GluedRule(net: AddrSyntax, pre: string, last: string, line: string, r: Rule)
    requires Terminated(pre) && last != "" && '\n' !in last && '\n' !in line
    requires var e, e' := EffectOf(net, last), EffectOf(net, last + line);
             && (AllWs(last) ==> e == Nop && e' == Insert(r))
             && ('#' in last ==> e' == e)
             && (!AllWs(last) && '#' !in last ==> e' != Insert(r))
    ensures var m, m' := Load(net, pre + last), Load(net, (pre + last) + line + "\n");
            && (m' == Apply(m, Insert(r)) <==> AllWs(last) || (r in m.rules && LastLineIsSpared(net, pre, last, line)))
            && ('#' in last ==> LastLineIsSpared(net, pre, last, line))
            && (r in m.rules - Load(net, pre).rules && '#' !in last ==> !LastLineIsSpared(net, pre, last, line))
  {
    hide Load, EffectOf, AllWs;
    GluedFile(net, pre, last, line);
    OneMoreRule(Load(net, pre), EffectOf(net, last), EffectOf(net, last + line), r);
    EffectsAgree(Load(net, pre), EffectOf(net, last), EffectOf(net, last + line));
    hide Apply;
  }

  /** A file that is one comment without a newline: an answer for all of /bin/a
      ends up inside the comment. */
  lemma RuleEndsInComment(net: AddrSyntax, q: Query)
    requires Lawful(net) && q.exe == Some("/bin/a") && q.host == None
    ensures var (m', text') := Record(net, Load(net, "#"), "#", AllowApp, q, "");
            App(true, "/bin/a") in m'.rules && Load(net, text') != m'
  {
    SampleIsClean();
    LoneComment();
    CommentLoadsNothing(net);
    hide Load, CleanText, AllWs, EndsInside, Lawful, LastLineIsSpared, Line;
    RecordIntoUnterminatedFile(net, "#", "", "#", AllowApp, q, "");
  }

  lemma LoneComment()
    ensures !AllWs("#") && EndsInside("#", "", "#")
  {
    assert "#"[0] == '#' && "" + "#" == "#";
  }

  lemma CommentLoadsNothing(net: AddrSyntax)
    ensures Load(net, "#") == NOTHING && Load(net, "") == NOTHING && EffectOf(net, "#") == Nop
  {
    LinesOfNothing();
    assert EndsInside("#", "", "#");
    assert EffectOf(net, "#") == Nop by { BeforeHashAppend("", ""); assert "" + "#" + "" == "#"; }
    hide EffectOf;
    LinesWithLast("", "#");
    assert "" + "#" == "#";
    LoadAppend(net, [], "#");
    assert [] + ["#"] == ["#"];
  }
}
