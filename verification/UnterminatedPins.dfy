/** What pinning a binary, and a whole answer, do to a policy file whose last line
    lacks its newline: the pin comes first, so it is the pin that is glued.
    Source: src/main.rs, lines 508-519; src/policy.rs, lines 323-460 and 1330-1343. */
module UnterminatedPins {
  import opened Options
  import opened Text
  import opened Targets
  import opened Policy
  import opened PolicyRecord
  import opened UnterminatedFile

  predicate CleanPin(exe: string, sha: string) {
    CleanText(exe) && CleanText(sha) && NoWs(sha)
  }

  predicate PinnedTo(m: Meaning, exe: string, sha: string) {
    exe in m.appId && m.appId[exe] == Lower(sha)
  }

  // ---- the glued pin ----

  lemma PinIsApp(net: AddrSyntax, d: Directive, exe: string, sha: string)
    requires DirectiveEffect(net, d) == PinId(exe, Lower(sha))
    ensures d.key == "app-id" && SplitScoped(d.value).Some? && SplitScoped(d.value).value.1 == exe
  {
    hide RuleOf, SplitScoped, ParseKind, Lower;
  }

  lemma PinValue(exe: string, sha: string)
    requires CleanPin(exe, sha)
    ensures var value := sha + ['\t'] + exe;
            && CleanText(value) && CleanKey("app-id")
            && SplitScoped(value).Some? && SplitScoped(value).value.1 == exe
  {
    AppIdIsNoKind();
    ScopedComesBack(sha, '\t', exe);
    hide CleanText, CleanKey, SplitScoped, NoWs, ParseKind;
  }

  /** Glued behind text, a pin line never pins its binary. */
  lemma GluedPinIsNotThePin(net: AddrSyntax, last: string, exe: string, sha: string)
    requires CleanPin(exe, sha) && !AllWs(last) && '#' !in last
    ensures EffectOf(net, last + PinLine(exe, sha)) != PinId(exe, Lower(sha))
  {
    var value := sha + ['\t'] + exe;
    PinValue(exe, sha);
    BodyIsClean("app-id", value);
    TrimStartOfNonBlank(last, "");
    hide DirectiveEffect, Commented, Split, TrimStart, CleanKey, CleanText, Trimmed, SplitScoped, Lower, CleanPin, AllWs, NoWs;
    TokensOfGlued(last, "app-id" + [' '] + value, Some(" identity when approved"));
    CleanTextIsTrimmed(value);
    SplitOfGlued(TrimStart(last), "app-id", value);
    var d := Split(TrimStart(last) + ("app-id" + [' '] + value));
    if DirectiveEffect(net, d) == PinId(exe, Lower(sha)) {
      PinIsApp(net, d, exe, sha);
      var front :| front != "" && !IsWs(front[0]) && d.value == front + [' '] + value;
      LongerScopedExe(front, value, exe);
    }
  }

  lemma PinBehindBlank(net: AddrSyntax, last: string, exe: string, sha: string)
    requires CleanPin(exe, sha) && AllWs(last)
    ensures EffectOf(net, last + PinLine(exe, sha)) == PinId(exe, Lower(sha)) && EffectOf(net, last) == Nop
  {
    PinDirective(net, exe, sha);
    hide Line, EffectOf, DirectiveEffect, CleanText, CleanKey, Lower, NoWs, AllWs;
    LineMeans(net, last, "app-id", sha + ['\t'] + exe, Some(" identity when approved"));
    BlankLineIsNop(net, last);
  }

  lemma GluedPin(net: AddrSyntax, last: string, exe: string, sha: string)
    requires CleanPin(exe, sha)
    ensures var e, e' := EffectOf(net, last), EffectOf(net, last + PinLine(exe, sha));
            && (AllWs(last) ==> e == Nop && e' == PinId(exe, Lower(sha)))
            && ('#' in last ==> e' == e && !AllWs(last))
            && (!AllWs(last) && '#' !in last ==> e' != PinId(exe, Lower(sha)))
  {
    WsHasNoHash(last);
    hide EffectOf, PinLine, CleanPin, AllWs, Lower;
    if AllWs(last) {
      PinBehindBlank(net, last, exe, sha);
    } else if '#' in last {
      CommentSwallows(net, last, PinLine(exe, sha));
    } else {
      GluedPinIsNotThePin(net, last, exe, sha);
    }
  }

  lemma PinIsOneLine(exe: string, sha: string)
    requires CleanPin(exe, sha)
    ensures '\n' !in PinLine(exe, sha)
  {
    PinValue(exe, sha);
    hide Line, CleanText, CleanKey, SplitScoped;
    LineHasNoNewlineOf(sha + ['\t'] + exe);
  }

  lemma GluedPinFile(net: AddrSyntax, pre: string, last: string, exe: string, sha: string)
    requires CleanPin(exe, sha) && EndsInside(pre + last, pre, last)
    ensures var e, e' := EffectOf(net, last), EffectOf(net, last + PinLine(exe, sha));
            && Load(net, pre + last) == Apply(Load(net, pre), e)
            && Load(net, (pre + last) + PinLine(exe, sha) + "\n") == Apply(Load(net, pre), e')
            && (AllWs(last) ==> e == Nop && e' == PinId(exe, Lower(sha)))
            && ('#' in last ==> e' == e && !AllWs(last))
            && (!AllWs(last) && '#' !in last ==> e' != PinId(exe, Lower(sha)))
  {
    hide Load, EffectOf, PinLine, CleanPin, AllWs, Lower, Apply;
    PinIsOneLine(exe, sha);
    GluedFile(net, pre, last, PinLine(exe, sha));
    GluedPin(net, last, exe, sha);
  }

  lemma OnlyThePinPins(m: Meaning, e: Effect, exe: string, sha: string)
    requires !PinnedTo(m, exe, sha)
    ensures PinnedTo(Apply(m, e), exe, sha) <==> e == PinId(exe, Lower(sha))
  {
    hide Lower;
  }

  /** Pinning into a file whose last line lacks its newline: memory and file still
      agree exactly when the binary was pinned already, so that nothing is
      written, or that last line is blank. */
  lemma RecordIdIntoUnterminatedFile(net: AddrSyntax, text: string, pre: string, last: string, exe: string, sha: string)
    requires CleanPin(exe, sha) && EndsInside(text, pre, last)
    ensures var (m', text') := RecordId(Load(net, text), text, exe, sha);
            Load(net, text') == m' <==> exe in Load(net, text).appId || AllWs(last)
  {
    GluedPinFile(net, pre, last, exe, sha);
    var m, e, e' := Load(net, pre), EffectOf(net, last), EffectOf(net, last + PinLine(exe, sha));
    RecordIdCases(Load(net, text), text, exe, sha);
    hide Load, EffectOf, CleanPin, AllWs, Lower, PinLine, RecordId, Apply;
    if exe !in Load(net, text).appId {
      OneMorePin(m, e, e', exe, sha);
    }
  }

  lemma RecordIdCases(m: Meaning, text: string, exe: string, sha: string)
    ensures RecordId(m, text, exe, sha) == if exe in m.appId then (m, text)
                                           else (Apply(m, PinId(exe, Lower(sha))), text + PinLine(exe, sha) + "\n")
  {
    hide Line, Lower;
  }

  lemma OneMorePin(m: Meaning, e: Effect, e': Effect, exe: string, sha: string)
    requires exe !in Apply(m, e).appId
    ensures var p := PinId(exe, Lower(sha));
            && (e == Nop && e' == p ==> Apply(m, e') == Apply(Apply(m, e), p))
            && (e' != p ==> Apply(m, e') != Apply(Apply(m, e), p))
            && e != p
  {
    hide Lower;
    assert exe !in m.appId;
    assert exe in Apply(Apply(m, e), PinId(exe, Lower(sha))).appId;
  }

  /** What a last line says that a pin behind it does not overrule. */
  function Besides(e: Effect, exe: string): Effect {
    if e.PinId? && e.exe == exe then Nop else e
  }

  /** With the pin glued to it, the last line says what it said besides pinning the
      binary, or what is terminated and what is written next say both already. */
  predicate GlueIsHarmless(net: AddrSyntax, pre: string, last: string, exe: string, sha: string, next: Effect) {
    var m, e, e' := Apply(Load(net, pre), next), Besides(EffectOf(net, last), exe), EffectOf(net, last + PinLine(exe, sha));
    e == e' || (SaidAlready(m, e) && SaidAlready(m, e'))
  }

  lemma NextCommutes(m: Meaning, e: Effect, next: Effect)
    requires next == Nop || next.Insert?
    ensures Apply(Apply(m, e), next) == Apply(Apply(m, next), e)
  {
    if e.Insert? && next.Insert? {
      assert m.rules + {e.r} + {next.r} == m.rules + {next.r} + {e.r};
    }
  }

  /** Where the binary is pinned so already, a pin undoes only what came between. */
  lemma PinUndoes(m: Meaning, e: Effect, exe: string, sha: string)
    requires PinnedTo(m, exe, sha)
    ensures Apply(Apply(m, e), PinId(exe, Lower(sha))) == Apply(m, Besides(e, exe))
  {
    hide Lower;
    var a := Apply(Apply(m, e), PinId(exe, Lower(sha))).appId;
    if e.PinId? && e.exe == exe {
      assert a == m.appId;
    } else {
      assert a == Apply(m, e).appId;
    }
  }

  lemma HarmlessMeaning(net: AddrSyntax, pre: string, last: string, exe: string, sha: string, next: Effect)
    requires PinnedTo(Load(net, pre), exe, sha) && (next == Nop || next.Insert?)
    ensures var m, e, e' := Load(net, pre), EffectOf(net, last), EffectOf(net, last + PinLine(exe, sha));
            Apply(Apply(m, e'), next) == Apply(Apply(Apply(m, e), PinId(exe, Lower(sha))), next)
            <==> GlueIsHarmless(net, pre, last, exe, sha, next)
  {
    var m, e, e' := Load(net, pre), EffectOf(net, last), EffectOf(net, last + PinLine(exe, sha));
    hide Load, EffectOf, PinLine, Lower, PinnedTo, Apply, SaidAlready, Besides;
    PinUndoes(m, e, exe, sha);
    NextCommutes(m, Besides(e, exe), next);
    NextCommutes(m, e', next);
    EffectsAgree(Apply(m, next), Besides(e, exe), e');
  }

  /** When an approval's pin and what it writes next reach an unterminated file: if
      the last line is blank; or has a comment and the file pins the binary so
      already; or a terminated line does and the glueing is harmless. */
  predicate PinGetsThrough(net: AddrSyntax, pre: string, last: string, exe: string, sha: string, next: Effect) {
    || AllWs(last)
    || ('#' in last && PinnedTo(Apply(Load(net, pre), EffectOf(net, last)), exe, sha))
    || ('#' !in last && PinnedTo(Load(net, pre), exe, sha) && GlueIsHarmless(net, pre, last, exe, sha, next))
  }

  lemma GluedPinThen(net: AddrSyntax, pre: string, last: string, exe: string, sha: string, next: Effect)
    requires CleanPin(exe, sha) && EndsInside(pre + last, pre, last) && (next == Nop || next.Insert?)
    ensures Apply(Load(net, (pre + last) + PinLine(exe, sha) + "\n"), next)
            == Apply(Apply(Load(net, pre + last), PinId(exe, Lower(sha))), next)
            <==> PinGetsThrough(net, pre, last, exe, sha, next)
  {
    GluedPinFile(net, pre, last, exe, sha);
    var m, e, e' := Load(net, pre), EffectOf(net, last), EffectOf(net, last + PinLine(exe, sha));
    WsHasNoHash(last);
    hide Load, EffectOf, CleanPin, AllWs, Lower, PinLine, PinnedTo, Apply, EndsInside, GlueIsHarmless;
    if PinnedTo(m, exe, sha) {
      HarmlessMeaning(net, pre, last, exe, sha, next);
    } else {
      OnlyThePinPins(m, e', exe, sha);
    }
    PinTwice(m, e, exe, sha);
    PinTwice(Apply(m, e), Nop, exe, sha);
    PinnedAlready(Apply(m, e), exe, sha);
    NextKeepsPins(Apply(m, e'), next, exe, sha);
    NextKeepsPins(Apply(Apply(m, e), PinId(exe, Lower(sha))), next, exe, sha);
  }

  lemma PinnedAlready(m: Meaning, exe: string, sha: string)
    ensures Apply(m, PinId(exe, Lower(sha))) == m <==> PinnedTo(m, exe, sha)
  {
    hide Lower;
    if PinnedTo(m, exe, sha) {
      assert m.appId[exe := Lower(sha)] == m.appId;
    } else {
      assert Apply(m, PinId(exe, Lower(sha))).appId[exe] == Lower(sha);
    }
  }

  lemma NextKeepsPins(m: Meaning, next: Effect, exe: string, sha: string)
    requires next == Nop || next.Insert?
    ensures PinnedTo(Apply(m, next), exe, sha) <==> PinnedTo(m, exe, sha)
  {
  }

  /** Pinning anew, after forgetting the old pin, into a file whose last line lacks
      its newline: memory and file agree exactly when the pin gets through. */
  lemma RepinIntoUnterminatedFile(net: AddrSyntax, text: string, pre: string, last: string, exe: string, sha: string)
    requires CleanPin(exe, sha) && EndsInside(text, pre, last)
    ensures var (m', text') := RecordId(ForgetId(Load(net, text), exe), text, exe, sha);
            (Load(net, text') == m' <==> PinGetsThrough(net, pre, last, exe, sha, Nop)) && Terminated(text')
  {
    RepinOverwrites(Load(net, text), text, exe, sha);
    hide Load, CleanPin, PinLine, RecordId, ForgetId, PinGetsThrough, Lower;
    GluedPinThen(net, pre, last, exe, sha, Nop);
  }

  lemma PinTwice(m: Meaning, e: Effect, exe: string, sha: string)
    ensures var p := PinId(exe, Lower(sha));
            && PinnedTo(Apply(Apply(m, e), p), exe, sha)
            && (e == Nop || e == p ==> Apply(Apply(m, e), p) == Apply(m, p))
  {
    hide Lower;
    if e.PinId? {
      assert m.appId[exe := Lower(sha)][exe := Lower(sha)] == m.appId[exe := Lower(sha)];
    }
  }

  /** The whole answer: an approval that pins writes its rule behind the pin, on a
      line of its own. So the file always gets the rule, and agrees with memory
      exactly when the pin gets through. */
  lemma ApprovalIntoUnterminatedFile(net: AddrSyntax, text: string, pre: string, last: string, ans: Answer, q: Query,
                                     sha: string, note: string)
    requires Lawful(net) && CleanQuery(q) && '\n' !in note && q.exe.Some? && Allows(ans)
    requires CleanPin(q.exe.value, sha) && EndsInside(text, pre, last)
    ensures var (m1, text1) := Repin(Load(net, text), text, q.exe, ans, Some(sha));
            var (m2, text2) := Record(net, m1, text1, ans, q, note);
            var rule := RecordedRule(ans, q).value;
            && (Load(net, text2) == m2 <==> PinGetsThrough(net, pre, last, q.exe.value, sha, Insert(rule)))
            && rule in Load(net, text2).rules
  {
    var exe := q.exe.value;
    RepinOverwrites(Load(net, text), text, exe, sha);
    assert RecordedRule(ans, q).Some?;
    RepinIntoUnterminatedFile(net, text, pre, last, exe, sha);
    var m1 := Apply(Load(net, text), PinId(exe, Lower(sha)));
    var text1 := text + PinLine(exe, sha) + "\n";
    InsertInserts(Load(net, text1), RecordedRule(ans, q).value);
    hide Load, Record, RecordId, ForgetId, RecordedRule, CleanPin, EndsInside, Lower, Lawful, CleanQuery, PinLine, Apply, PinGetsThrough;
    RecordBehind(net, m1, text1, ans, q, note);
    EndsWhole(text, pre, last);
    GluedPinThen(net, pre, last, exe, sha, Insert(RecordedRule(ans, q).value));
  }

  lemma EndsWhole(text: string, pre: string, last: string)
    requires EndsInside(text, pre, last)
    ensures text == pre + last
  {
  }

  lemma InsertInserts(m: Meaning, r: Rule)
    ensures r in Apply(m, Insert(r)).rules
  {
  }

  /** Approving a pinned binary that cannot be hashed: memory forgets the pin, and
      an unterminated file agrees exactly when only its last line had the pin, and
      the terminated lines have the rule and all that the glued line says. */
  lemma HashlessIntoUnterminatedFile(net: AddrSyntax, text: string, pre: string, last: string, ans: Answer, q: Query, note: string)
    requires Lawful(net) && CleanQuery(q) && '\n' !in note && q.exe.Some? && Allows(ans) && EndsInside(text, pre, last)
    requires q.exe.value in Load(net, text).appId
    ensures var (m1, text1) := Repin(Load(net, text), text, q.exe, ans, None);
            var (m2, text2) := Record(net, m1, text1, ans, q, note);
            var line := RuleLine(net, RawRule(ans, q).value, '\t', if ans.AllowApp? then None else Some(note));
            Load(net, text2) == m2 <==>
              && q.exe.value !in Load(net, pre).appId && RecordedRule(ans, q).value in Load(net, pre).rules
              && SaidAlready(Load(net, pre), EffectOf(net, last + line))
  {
    var exe, r, raw := q.exe.value, RecordedRule(ans, q).value, RawRule(ans, q).value;
    var comment := if ans.AllowApp? then None else Some(note);
    var line := RuleLine(net, raw, '\t', comment);
    RecordedLineIsRuleLine(net, ans, q);
    RecordIsAppend(net, ForgetId(Load(net, text), exe), text, ans, q, note);
    assert Repin(Load(net, text), text, q.exe, ans, None) == (ForgetId(Load(net, text), exe), text);
    hide *;
    RuleLineIsOneLine(net, raw, '\t', comment);
    EndsWhole(text, pre, last);
    EndsParts(text, pre, last);
    GluedFile(net, pre, last, line);
    GluedEffect(net, last, ans, q, comment);
    ForgottenPin(Load(net, pre), EffectOf(net, last), EffectOf(net, last + line), exe, r);
  }

  lemma EndsParts(text: string, pre: string, last: string)
    requires EndsInside(text, pre, last)
    ensures Terminated(pre) && last != "" && '\n' !in last
  {
  }

  lemma ForgottenPin(m: Meaning, e: Effect, e': Effect, exe: string, r: Rule)
    requires exe in Apply(m, e).appId && (e' == Insert(r) ==> e == Nop || e == e')
    ensures Apply(m, e') == Apply(ForgetId(Apply(m, e), exe), Insert(r))
       <==> exe !in m.appId && r in m.rules && SaidAlready(m, e')
  {
    if exe in m.appId {
      assert exe in Apply(m, e').appId;
    } else {
      assert e.PinId? && e.exe == exe;
      assert m.appId[exe := e.sha] - {exe} == m.appId;
      assert ForgetId(Apply(m, e), exe) == m;
      EffectsAgree(m, Insert(r), e');
      if SaidAlready(m, Insert(r)) { assert r in m.rules + {r}; }
      if r in m.rules { assert m.rules + {r} == m.rules; }
    }
  }

  /** A file that is one comment without a newline: approving /bin/a writes its
      rule and loses its pin. */
  lemma PinEndsInComment(net: AddrSyntax, q: Query)
    requires Lawful(net) && q.exe == Some("/bin/a") && q.host == None
    ensures var (m1, text1) := Repin(Load(net, "#"), "#", q.exe, AllowApp, Some("f00"));
            var (m2, text2) := Record(net, m1, text1, AllowApp, q, "");
            App(true, "/bin/a") in Load(net, text2).rules && Load(net, text2) != m2
  {
    SampleIsClean();
    LoneComment();
    CommentLoadsNothing(net);
    StuckInComment(net, "/bin/a", "f00", Insert(App(true, "/bin/a")));
    assert RecordedRule(AllowApp, q) == Some(App(true, "/bin/a"));
    hide *;
    ApprovalIntoUnterminatedFile(net, "#", "", "#", AllowApp, q, "f00", "");
  }

  lemma StuckInComment(net: AddrSyntax, exe: string, sha: string, next: Effect)
    requires Load(net, "") == NOTHING && EffectOf(net, "#") == Nop && !AllWs("#")
    ensures !PinGetsThrough(net, "", "#", exe, sha, next)
  {
    hide Load, EffectOf, AllWs, GlueIsHarmless, Lower;
    assert '#' in "#";
  }
}
