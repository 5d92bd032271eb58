/** Whole-file edits: forgetting a binary, clearing every rule, setting a
    single-valued directive. Source: src/policy.rs, lines 768-804 and 1346-1418. */
module PolicyEdits {
  import opened Options
  import opened Text
  import opened Targets
  import opened Policy
  import opened PolicyRecord
  import opened PolicyFile

  // ---- remove_app ----

  predicate AppHit(exe: string, raw: string) {
    match ParseLine(raw)
    case None => false
    case Some(d) =>
      if d.key == "app-id" then ScopedTo(d.value, exe)
      else
        match ParseKind(d.key)
        case None => false
        case Some(k) =>
          match k.shape
          case ToApp => d.value == exe
          case ToHostFrom => ScopedTo(d.value, exe)
          case ToDestFrom => ScopedTo(d.value, exe)
          case _ => false
  }

  predicate ScopedTo(v: string, exe: string) {
    SplitScoped(v).Some? && SplitScoped(v).value.1 == exe
  }

  function AppHits(exe: string): string -> bool {
    (raw: string) => AppHit(exe, raw)
  }

  predicate BelongsTo(r: Rule, exe: string) {
    (r.App? || r.HostFrom? || r.DestFrom?) && r.exe == exe
  }

  function WithoutApp(exe: string): Meaning -> Meaning {
    (m: Meaning) => m.(rules := (set r | r in m.rules && !BelongsTo(r, exe)), appId := m.appId - {exe})
  }

  method RemoveApp(text: string, exe: string) returns (removed: nat, text': string)
    ensures removed == Count(Lines(text), AppHits(exe)) && text' == Rewrite(text, AppHits(exe))
  {
    hide Lines, AppHit, Keep, Count;
    ghost var hit := AppHits(exe);
    var ls := Lines(text);
    var kept := "";
    removed := 0;
    KeepNothing(hit);
    for i := 0 to |ls|
      invariant kept == Unlines(Keep(ls[..i], hit)) && removed == Count(ls[..i], hit)
    {
      KeepStep(ls, hit, i);
      if AppHit(exe, ls[i]) {
        removed := removed + 1;
      } else {
        UnlinesAppend(Keep(ls[..i], hit), ls[i]);
        kept := kept + ls[i] + "\n";
      }
    }
    assert ls[..|ls|] == ls;
    text' := if removed > 0 then kept else text;
  }

  /** An effect about a binary: what removing that binary must take away. */
  predicate About(e: Effect, exe: string) {
    (e.Insert? && BelongsTo(e.r, exe)) || (e.PinId? && e.exe == exe)
  }

  lemma DropAppCommutes(m: Meaning, e: Effect, exe: string)
    ensures WithoutApp(exe)(Apply(m, e)) == if About(e, exe) then WithoutApp(exe)(m) else Apply(WithoutApp(exe)(m), e)
  {
    if e.PinId? {
      assert e.exe == exe ==> m.appId[e.exe := e.sha] - {exe} == m.appId - {exe};
      assert e.exe != exe ==> m.appId[e.exe := e.sha] - {exe} == (m.appId - {exe})[e.exe := e.sha];
    }
    if e.Insert? {
      assert forall r :: r in m.rules + {e.r} <==> r in m.rules || r == e.r;
    }
  }

  /** A line is hit exactly when its effect is about the binary, or when it would
      have been a rule of that binary but for a bad address. */
  lemma AppHitIsAbout(net: AddrSyntax, exe: string, raw: string)
    requires exe != ""
    ensures About(EffectOf(net, raw), exe) ==> AppHit(exe, raw)
    ensures AppHit(exe, raw) ==> About(EffectOf(net, raw), exe) || EffectOf(net, raw) == Nop
  {
    hide Tokens, DirectiveEffect, ParseKind, About, ScopedTo, DestFromRule;
    NothingAbout(exe);
    if Tokens(raw).Some? {
      DirectiveAbout(net, Tokens(raw).value, exe);
      NothingScoped(exe);
    }
  }

  lemma NothingAbout(exe: string)
    ensures !About(Nop, exe)
  {
  }

  lemma NothingScoped(exe: string)
    ensures !ScopedTo("", exe)
  {
    assert FirstWs("") == 0;
  }

  /** The same for a directive, value or no value. */
  lemma DirectiveAbout(net: AddrSyntax, d: Directive, exe: string)
    ensures About(DirectiveEffect(net, d), exe) <==>
              if d.key == "app-id" then ScopedTo(d.value, exe)
              else if ParseKind(d.key).None? then false
              else
                var k := ParseKind(d.key).value;
                if k.shape.ToApp? then d.value == exe
                else if k.shape.ToHostFrom? then ScopedTo(d.value, exe)
                else if k.shape.ToDestFrom? then ScopedTo(d.value, exe) && DestFromRule(net, k.allow, d.value).Some?
                else false
    ensures (ParseKind(d.key).Some? && ParseKind(d.key).value.shape.ToDestFrom? &&
             DestFromRule(net, ParseKind(d.key).value.allow, d.value).None?) ==> DirectiveEffect(net, d) == Nop
    ensures ParseKind("app-id").None?
  {
    AppIdIsNoKind();
    hide ParseKind, SplitScoped, SplitTarget, Lower, ParseMode, ParseAttribution;
  }

  lemma RemoveNamedApp(net: AddrSyntax, text: string, exe: string)
    requires exe != ""
    ensures Load(net, Rewrite(text, AppHits(exe))) == WithoutApp(exe)(Load(net, text))
  {
    hide EffectOf, Lines, Load, Apply, Rewrite, About, AppHit;
    assert WithoutApp(exe)(NOTHING) == NOTHING;
    forall m, l | l in Lines(text)
      ensures WithoutApp(exe)(Apply(m, EffectOf(net, l)))
              == if AppHits(exe)(l) then WithoutApp(exe)(m) else Apply(WithoutApp(exe)(m), EffectOf(net, l))
    {
      AppHitIsAbout(net, exe, l);
      DropAppCommutes(m, EffectOf(net, l), exe);
      NopChangesNothing(m);
    }
    EditMeaning(net, text, AppHits(exe), WithoutApp(exe));
  }

  lemma NopChangesNothing(m: Meaning)
    ensures Apply(m, Nop) == m
  {
  }

  lemma NobodyIsHit(raw: string)
    ensures !AppHit("", raw)
  {
    hide Tokens, ParseKind, SplitScoped;
  }

  lemma NoLineNamesNothing(ls: seq<string>)
    ensures Count(ls, AppHits("")) == 0
  {
    hide Count, Keep, AppHit;
    KeepMembers(ls, AppHits(""));
    forall raw ensures !AppHit("", raw) { NobodyIsHit(raw); }
  }

  /** Removing a binary takes out exactly its rules and its pin, of any file, and
      nothing else. With the empty name it removes nothing, so it is right just
      when no app rule without a binary was loaded. */
  lemma RemoveAppMeaning(net: AddrSyntax, text: string, exe: string)
    ensures Load(net, Rewrite(text, AppHits(exe))) == WithoutApp(exe)(Load(net, text))
            <==> exe != "" || (App(true, "") !in Load(net, text).rules && App(false, "") !in Load(net, text).rules)
  {
    if exe != "" {
      RemoveNamedApp(net, text, exe);
    } else {
      NoLineNamesNothing(Lines(text));
      NothingBelongsToNobody(net, Lines(text));
      var m := Load(net, text);
      hide Load, Lines, Count, Keep;
      assert Rewrite(text, AppHits(exe)) == text;
      assert m.appId - {""} == m.appId;
      assert BelongsTo(App(true, ""), "") && BelongsTo(App(false, ""), "");
      if App(true, "") !in m.rules && App(false, "") !in m.rules {
        forall r | r in m.rules ensures !BelongsTo(r, "") {
          if r.App? { assert r == App(r.allow, r.exe); }
        }
        assert (set r | r in m.rules && !BelongsTo(r, "")) == m.rules;
      }
    }
  }

  /** Nothing scoped or pinned is ever loaded for the empty name. */
  ghost predicate NamesSomebody(m: Meaning) {
    "" !in m.appId && forall r :: r in m.rules && BelongsTo(r, "") ==> r.App?
  }

  lemma ApplyNamesSomebody(m: Meaning, e: Effect)
    requires NamesSomebody(m) && (e.PinId? ==> e.exe != "") && (e.Insert? && BelongsTo(e.r, "") ==> e.r.App?)
    ensures NamesSomebody(Apply(m, e))
  {
  }

  lemma {:induction false} NothingBelongsToNobody(net: AddrSyntax, ls: seq<string>)
    ensures NamesSomebody(LoadLines(net, ls))
  {
    hide EffectOf, Apply;
    if ls != [] {
      NothingBelongsToNobody(net, ls[..|ls| - 1]);
      EffectNamesSomebody(net, ls[|ls| - 1]);
      ApplyNamesSomebody(LoadLines(net, ls[..|ls| - 1]), EffectOf(net, ls[|ls| - 1]));
    }
  }

  lemma EffectNamesSomebody(net: AddrSyntax, raw: string)
    ensures var e := EffectOf(net, raw);
            (e.PinId? ==> e.exe != "") && (e.Insert? && BelongsTo(e.r, "") ==> e.r.App?)
  {
    if Tokens(raw).Some? {
      DirectiveAbout(net, Tokens(raw).value, "");
      hide Tokens, ParseKind, SplitTarget, Lower, ParseMode, ParseAttribution;
    }
  }

  // ---- clear_rules ----

  predicate RuleOrPin(raw: string) {
    var d := ParseLine(raw);
    d.Some? && (ParseKind(d.value.key).Some? || d.value.key == "app-id")
  }

  function AnyRule(): string -> bool {
    (raw: string) => RuleOrPin(raw)
  }

  /** A rule kind with no value behind it: the loader takes it for a rule about
      the empty name, the editors take it for no rule. */
  predicate BareRule(raw: string) {
    var d := Tokens(raw);
    d.Some? && d.value.value == "" && ParseKind(d.value.key).Some? &&
    (ParseKind(d.value.key).value.shape.ToApp? || ParseKind(d.value.key).value.shape.ToHost?)
  }

  method ClearRules(text: string) returns (removed: nat, text': string)
    ensures removed == Count(Lines(text), AnyRule()) && text' == Rewrite(text, AnyRule())
  {
    hide Lines, RuleOrPin, Keep, Count;
    ghost var hit := AnyRule();
    var ls := Lines(text);
    var kept := "";
    removed := 0;
    KeepNothing(hit);
    for i := 0 to |ls|
      invariant kept == Unlines(Keep(ls[..i], hit)) && removed == Count(ls[..i], hit)
    {
      KeepStep(ls, hit, i);
      if RuleOrPin(ls[i]) {
        removed := removed + 1;
      } else {
        UnlinesAppend(Keep(ls[..i], hit), ls[i]);
        kept := kept + ls[i] + "\n";
      }
    }
    assert ls[..|ls|] == ls;
    text' := if removed > 0 then kept else text;
  }

  function Cleared(m: Meaning): Meaning {
    m.(rules := {}, appId := map[])
  }

  lemma DirectiveColours(net: AddrSyntax, d: Directive)
    ensures var e := DirectiveEffect(net, d);
            && (ParseKind(d.key).Some? ==> e.Insert? || e.Nop?)
            && (d.key == "app-id" ==> e.PinId? || e.Nop?)
            && (ParseKind(d.key).None? && d.key != "app-id" ==> !e.Insert? && !e.PinId?)
  {
    AppIdIsNoKind();
    hide ParseKind, RuleOf, SplitScoped, ParseMode, ParseAttribution;
  }

  lemma BareDirective(net: AddrSyntax, d: Directive)
    requires Lawful(net) && d.value == ""
    ensures var e := DirectiveEffect(net, d);
            && (ParseKind(d.key).Some? ==> (e.Insert? <==> ParseKind(d.key).value.shape.ToApp? || ParseKind(d.key).value.shape.ToHost?))
            && !e.PinId?
  {
    EmptyTarget(net);
    hide ParseKind, SplitScoped, SplitTarget, Lower, ParseMode, ParseAttribution, Lawful;
  }

  lemma RuleOrPinEffect(net: AddrSyntax, raw: string)
    requires Lawful(net)
    ensures var e := EffectOf(net, raw);
            && (RuleOrPin(raw) ==> e.Insert? || e.PinId? || e.Nop?)
            && (!RuleOrPin(raw) && !BareRule(raw) ==> !e.Insert? && !e.PinId?)
            && (BareRule(raw) ==> !RuleOrPin(raw) && e.Insert?)
  {
    hide Tokens, ParseKind, DirectiveEffect, Lawful;
    if Tokens(raw).Some? {
      DirectiveColours(net, Tokens(raw).value);
      if Tokens(raw).value.value == "" { BareDirective(net, Tokens(raw).value); }
    }
  }

  lemma ClearCommutes(m: Meaning, e: Effect)
    ensures e.Insert? || e.PinId? || e.Nop? ==> Cleared(Apply(m, e)) == Cleared(m)
    ensures !e.Insert? && !e.PinId? ==> Cleared(Apply(m, e)) == Apply(Cleared(m), e)
  {
  }

  /** Clearing leaves every setting and no rule or pin, exactly when the file has
      no rule kind standing alone on a line. */
  lemma ClearRulesMeaning(net: AddrSyntax, text: string)
    requires Lawful(net)
    ensures Load(net, Rewrite(text, AnyRule())) == Cleared(Load(net, text)) <==> forall raw :: raw in Lines(text) ==> !BareRule(raw)
  {
    hide EffectOf, Lines, LoadLines, Apply, Rewrite, RuleOrPin, BareRule, Lawful, Cleared, Keep;
    if forall raw :: raw in Lines(text) ==> !BareRule(raw) {
      ClearedNothing();
      forall m, l | l in Lines(text)
        ensures Cleared(Apply(m, EffectOf(net, l))) == if AnyRule()(l) then Cleared(m) else Apply(Cleared(m), EffectOf(net, l))
      {
        RuleOrPinEffect(net, l);
        ClearCommutes(m, EffectOf(net, l));
      }
      EditMeaning(net, text, AnyRule(), (m: Meaning) => Cleared(m));
    } else {
      var raw :| raw in Lines(text) && BareRule(raw);
      RuleOrPinEffect(net, raw);
      RewriteMeaning(net, text, AnyRule());
      KeepMembers(Lines(text), AnyRule());
      LoadedRules(net, Keep(Lines(text), AnyRule()), EffectOf(net, raw).r);
      ClearedHasNoRule(Load(net, text), EffectOf(net, raw).r);
    }
  }

  /** The line `allow-app` is loaded as a rule about the empty name, is no rule to
      the editors, and so outlasts a clearing. */
  lemma BareKindOutlastsClearing(net: AddrSyntax)
    requires Lawful(net)
    ensures EffectOf(net, "allow-app") == Insert(App(true, "")) && ParseLine("allow-app") == None && !RuleOrPin("allow-app")
    ensures Load(net, Rewrite("allow-app\n", AnyRule())) != Cleared(Load(net, "allow-app\n"))
  {
    AllowAppAlone(net);
    hide *;
    LinesOfFirst("allow-app", "");
    LinesOfNothing();
    ClearRulesMeaning(net, "allow-app\n");
  }

  lemma AllowAppAlone(net: AddrSyntax)
    ensures BareRule("allow-app") && EffectOf(net, "allow-app") == Insert(App(true, ""))
    ensures ParseLine("allow-app") == None && !RuleOrPin("allow-app")
    ensures '\n' !in "allow-app" && StripCr("allow-app") == "allow-app" && "allow-app" + "\n" + "" == "allow-app\n"
  {
    AllowAppName();
    AppKindAlone(net, true);
    hide *;
  }

  lemma AllowAppName()
    ensures KindName(Kind(ToApp, true)) == "allow-app"
    ensures '\n' !in "allow-app" && StripCr("allow-app") == "allow-app" && "allow-app" + "\n" + "" == "allow-app\n"
  {
  }

  lemma AppKindAlone(net: AddrSyntax, allow: bool)
    ensures var name := KindName(Kind(ToApp, allow));
            && BareRule(name) && EffectOf(net, name) == Insert(App(allow, ""))
            && ParseLine(name) == None && !RuleOrPin(name)
  {
    var k := Kind(ToApp, allow);
    KindNameIsClean(k);
    ParseKindName(k);
    TokensOfWord(KindName(k));
    hide Tokens, KindName, ParseKind, CleanKey;
  }

  lemma TokensOfWord(key: string)
    requires CleanKey(key)
    ensures Tokens(key) == Some(Directive(key, ""))
  {
    BeforeHashAppend(key, "");
    assert FirstWs(key) == |key|;
    assert key[..|key|] == key;
  }

  lemma ClearedNothing()
    ensures Cleared(NOTHING) == NOTHING
  {
  }

  lemma ClearedHasNoRule(m: Meaning, r: Rule)
    ensures r !in Cleared(m).rules
  {
  }

  // ---- set_directive ----

  predicate IsKey(key: string, raw: string) {
    ParseLine(raw).Some? && ParseLine(raw).value.key == key
  }

  /** The lines with the directive's first line replaced and its others dropped,
      and whether there was one. */
  function Replaced(ls: seq<string>, key: string, line: string): (seq<string>, bool) {
    if ls == [] then ([], false)
    else
      var (out, written) := Replaced(ls[..|ls| - 1], key, line);
      var last := ls[|ls| - 1];
      if !IsKey(key, last) then (out + [last], written)
      else if written then (out, true)
      else (out + [line], true)
  }

  function WithDirective(text: string, key: string, value: string): string {
    var line := Line(key, value, None);
    var (out, written) := Replaced(Lines(text), key, line);
    Unlines(if written then out else out + [line])
  }

  method SetDirective(text: string, key: string, value: string) returns (text': string)
    ensures text' == WithDirective(text, key, value)
  {
    hide Lines, IsKey, Line, Replaced;
    var line := Line(key, value, None);
    var ls := Lines(text);
    var out := "";
    var written := false;
    NothingReplaced(key, line);
    for i := 0 to |ls|
      invariant out == Unlines(Replaced(ls[..i], key, line).0) && written == Replaced(ls[..i], key, line).1
    {
      ghost var before := Replaced(ls[..i], key, line).0;
      ReplacedStep(ls, key, line, i);
      if IsKey(key, ls[i]) {
        if !written {
          UnlinesAppend(before, line);
          out := out + line + "\n";
          written := true;
        }
      } else {
        UnlinesAppend(before, ls[i]);
        out := out + ls[i] + "\n";
      }
    }
    assert ls[..|ls|] == ls;
    if !written {
      UnlinesAppend(Replaced(ls, key, line).0, line);
      out := out + line + "\n";
    }
    text' := out;
  }

  lemma NothingReplaced(key: string, line: string)
    ensures Replaced([], key, line) == ([], false) && Unlines([]) == ""
  {
  }

  lemma ReplacedStep(ls: seq<string>, key: string, line: string, i: nat)
    requires i < |ls|
    ensures var (out, written) := Replaced(ls[..i], key, line);
            Replaced(ls[..i + 1], key, line) ==
              if !IsKey(key, ls[i]) then (out + [ls[i]], written)
              else if written then (out, true)
              else (out + [line], true)
  {
    assert ls[..i + 1][..i] == ls[..i];
  }

  function Keyed(key: string): string -> bool { (raw: string) => IsKey(key, raw) }

  /** The directive set in place: its first line replaced, its others cut out, every
      other character where it was; without one, a line of its own at the end. */
  function SetInPlace(text: string, hit: string -> bool, line: string): string
    decreases |text|
  {
    if text == "" then line + "\n"
    else
      var i := IndexOf(text, '\n');
      if i == |text| then (if hit(text) then line + "\n" else text + "\n" + (line + "\n"))
      else if hit(StripCr(text[..i])) then line + "\n" + Others(text[i + 1..], hit)
      else text[..i + 1] + SetInPlace(text[i + 1..], hit, line)
  }

  function SetAmong(ls: seq<string>, key: string, line: string): seq<string> {
    var (out, written) := Replaced(ls, key, line);
    if written then out else out + [line]
  }

  lemma {:induction false} ReplacedCons(l: string, ls: seq<string>, key: string, line: string)
    ensures var (out, written) := Replaced(ls, key, line);
            Replaced([l] + ls, key, line)
            == if IsKey(key, l) then ([line] + Keep(ls, Keyed(key)), true) else ([l] + out, written)
    decreases |ls|
  {
    hide IsKey;
    var all := [l] + ls;
    if ls == [] {
      assert all[..|all| - 1] == [] && all[|all| - 1] == l;
      assert [] + [line] == [line] + [] && [] + [l] == [l] + [];
    } else {
      var init, last := ls[..|ls| - 1], ls[|ls| - 1];
      assert all[..|all| - 1] == [l] + init && all[|all| - 1] == last;
      ReplacedCons(l, init, key, line);
      var kept, out := Keep(init, Keyed(key)), Replaced(init, key, line).0;
      ConsSnoc(line, kept, last);
      ConsSnoc(l, out, last);
      ConsSnoc(l, out, line);
    }
  }

  lemma ConsSnoc(l: string, ls: seq<string>, last: string)
    ensures [l] + ls + [last] == [l] + (ls + [last]) && ls + [] == ls
  {
  }

  lemma SetCons(l: string, ls: seq<string>, key: string, line: string)
    ensures SetAmong([l] + ls, key, line) == if IsKey(key, l) then [line] + Keep(ls, Keyed(key)) else [l] + SetAmong(ls, key, line)
  {
    hide IsKey, Replaced, Keep;
    ReplacedCons(l, ls, key, line);
    ConsSnoc(l, Replaced(ls, key, line).0, line);
  }

  lemma SetAmongFew(l: string, key: string, line: string)
    ensures SetAmong([], key, line) == [line]
    ensures SetAmong([l], key, line) == if IsKey(key, l) then [line] else [l, line]
  {
    hide IsKey;
    NothingReplaced(key, line);
    KeepNothing(Keyed(key));
    SetCons(l, [], key, line);
    assert [l] + [] == [l] && [line] + [] == [line] && [l] + [line] == [l, line] && [] + [line] == [line];
  }

  /** No line that stays is written differently: with no line of the directive, none
      that ends in a carriage return and a newline; with one, all plain. */
  ghost predicate StayPlain(text: string, hit: string -> bool) {
    if Count(Lines(text), hit) == 0 then !HasCrLf(text) else PlainOthers(text, hit)
  }

  lemma {:induction false} SetAmongIsInPlace(text: string, key: string, line: string)
    ensures Unlines(SetAmong(Lines(text), key, line)) == SetInPlace(text, Keyed(key), line) <==> StayPlain(text, Keyed(key))
    decreases |text|
  {
    var i := IndexOf(text, '\n');
    hide IsKey, Lines, Keep, Count, Unlines, SetAmong;
    if text == "" {
      LinesOfNothing();
      SetAmongFew("", key, line);
      UnlinesOfOne(line);
      KeepNothing(Keyed(key));
    } else if i == |text| {
      LinesOfLast(text);
      SetAmongFew(text, key, line);
      KeepOne(text, Keyed(key));
      UnlinesOfOne(line);
      UnlinesOfCons(text, [line]);
      assert [text] + [line] == [text, line];
    } else {
      var l, rest := text[..i], text[i + 1..];
      CutAt(text, i);
      LinesOfFirst(l, rest);
      SetCons(StripCr(l), Lines(rest), key, line);
      KeepCons(StripCr(l), Lines(rest), Keyed(key));
      assert text[..i + 1] == l + "\n";
      if IsKey(key, StripCr(l)) {
        KeptAreOthers(rest, Keyed(key));
        UnlinesOfCons(line, Keep(Lines(rest), Keyed(key)));
        SameBehind(line + "\n", Unlines(Keep(Lines(rest), Keyed(key))), Others(rest, Keyed(key)));
      } else {
        SetAmongIsInPlace(rest, key, line);
        UnlinesOfCons(StripCr(l), SetAmong(Lines(rest), key, line));
        StrippedComesBack(l, SetInPlace(rest, Keyed(key), line), Unlines(SetAmong(Lines(rest), key, line)));
        CrLfOfFirst(text, i);
      }
    }
  }

  lemma SameBehind(a: string, b: string, c: string)
    ensures a + b == a + c <==> b == c
  {
    if a + b == a + c {
      assert (a + b)[|a|..] == b && (a + c)[|a|..] == c;
    }
  }

  /** Setting a directive leaves every other line exactly as it was if and only if
      all of them end in a plain newline, which the last line need not if the
      directive was not there. */
  lemma SetDirectiveSparesOthers(text: string, key: string, value: string)
    ensures WithDirective(text, key, value) == SetInPlace(text, Keyed(key), Line(key, value, None))
            <==> StayPlain(text, Keyed(key))
  {
    hide Lines, Line, Keyed, StayPlain, Replaced, Unlines, SetInPlace;
    SetAmongIsInPlace(text, key, Line(key, value, None));
  }

  /** If a setting's lines do nothing but set it, the replaced file means the old
      one with that setting as the new line has it. */
  lemma {:induction false} ReplacedMeaning(net: AddrSyntax, ls: seq<string>, key: string, line: string, op: (Meaning, bool) -> Meaning)
    requires op(NOTHING, false) == NOTHING
    requires forall m :: Apply(op(m, false), EffectOf(net, line)) == op(m, true)
    requires forall m, l, w :: l in ls ==>
      op(Apply(m, EffectOf(net, l)), w) == if IsKey(key, l) then op(m, w) else Apply(op(m, w), EffectOf(net, l))
    ensures var (out, written) := Replaced(ls, key, line);
            LoadLines(net, out) == op(LoadLines(net, ls), written)
  {
    hide EffectOf, Apply, IsKey;
    if ls != [] {
      var init, last := ls[..|ls| - 1], ls[|ls| - 1];
      assert last in ls;
      forall l | l in init ensures l in ls {}
      ReplacedMeaning(net, init, key, line, op);
      var out := Replaced(init, key, line).0;
      LoadAppend(net, out, last);
      LoadAppend(net, out, line);
    }
  }

  datatype Setting = ModeSetting(mode: Mode) | AttributionSetting(attribution: AttributionMode) {
    function Key(): string {
      if ModeSetting? then "mode" else "attribution"
    }

    function Spelling(): string {
      match this
      case ModeSetting(m) => if m.Visibility? then "visibility" else "enforcement"
      case AttributionSetting(a) => if a.Procstat? then "procstat" else "kernel"
    }

    function Set(m: Meaning): Meaning {
      match this
      case ModeSetting(mode) => m.(mode := Some(mode))
      case AttributionSetting(a) => m.(attribution := Some(a))
    }

    function Unset(m: Meaning): Meaning {
      match this
      case ModeSetting(_) => m.(mode := None)
      case AttributionSetting(_) => m.(attribution := None)
    }
  }

  function SetTo(s: Setting): (Meaning, bool) -> Meaning {
    (m: Meaning, w: bool) => if w then s.Set(m) else s.Unset(m)
  }

  lemma SpellingMeans(s: Setting)
    ensures SettingOf(s.Key(), s.Spelling()) == SettingEffect(s)
    ensures ParseKind(s.Key()).None? && CleanKey(s.Key()) && CleanText(s.Spelling())
  {
    SpellingParses(s);
    KeyIsNoKind(s);
    hide ParseMode, ParseAttribution, ParseKind, SplitScoped;
  }

  lemma LowerFixed(l: string)
    requires forall i :: 0 <= i < |l| ==> !('A' <= l[i] <= 'Z')
    ensures Lower(l) == l
  {
  }

  lemma SpellingIsClean(s: Setting)
    ensures CleanText(s.Spelling()) && Lower(s.Spelling()) == s.Spelling()
  {
    LowerFixed(s.Spelling());
    hide Lower;
  }

  lemma TrimClean(l: string)
    requires CleanText(l)
    ensures Trim(l) == l
  {
  }

  lemma SpellingParses(s: Setting)
    ensures s.ModeSetting? ==> ParseMode(s.Spelling()) == Some(s.mode)
    ensures s.AttributionSetting? ==> ParseAttribution(s.Spelling()) == Some(s.attribution)
    ensures CleanText(s.Spelling())
  {
    SpellingIsClean(s);
    TrimClean(s.Spelling());
    hide Trim, Lower, CleanText;
  }

  lemma KeyIsNoKind(s: Setting)
    ensures ParseKind(s.Key()).None? && CleanKey(s.Key())
  {
    assert "mode"[..4][0] == 'm' && "attribution"[..5][1] == 't' && "attribution"[..4][0] == 'a';
  }

  predicate Sets(s: Setting, e: Effect) {
    if s.ModeSetting? then e.SetMode? else e.SetAttribution?
  }

  lemma SettingStep(s: Setting, m: Meaning, e: Effect, w: bool)
    ensures Sets(s, e) || e.Nop? ==> SetTo(s)(Apply(m, e), w) == SetTo(s)(m, w)
    ensures !Sets(s, e) ==> SetTo(s)(Apply(m, e), w) == Apply(SetTo(s)(m, w), e)
  {
    match s {
      case ModeSetting(_) =>
        assert s.Unset(Apply(m, e)) == if Sets(s, e) then s.Unset(m) else Apply(s.Unset(m), e);
        assert s.Set(Apply(m, e)) == if Sets(s, e) then s.Set(m) else Apply(s.Set(m), e);
      case AttributionSetting(_) =>
        assert s.Unset(Apply(m, e)) == if Sets(s, e) then s.Unset(m) else Apply(s.Unset(m), e);
        assert s.Set(Apply(m, e)) == if Sets(s, e) then s.Set(m) else Apply(s.Set(m), e);
    }
  }

  lemma KeyDirective(net: AddrSyntax, s: Setting, d: Directive)
    ensures var e := DirectiveEffect(net, d);
            && (d.key == s.Key() ==> Sets(s, e) || e.Nop?)
            && (d.key == s.Key() && d.value == "" ==> e.Nop?)
            && (d.key != s.Key() ==> !Sets(s, e))
  {
    KeyIsNoKind(s);
    NoValueNoSetting();
    hide ParseKind, RuleOf, SplitScoped, Lower, ParseMode, ParseAttribution;
  }

  lemma KeyEffect(net: AddrSyntax, s: Setting, raw: string)
    ensures var e := EffectOf(net, raw);
            && (IsKey(s.Key(), raw) ==> Sets(s, e) || e.Nop?)
            && (!IsKey(s.Key(), raw) ==> !Sets(s, e))
  {
    hide Tokens, DirectiveEffect, Setting.Key;
    if Tokens(raw).Some? { KeyDirective(net, s, Tokens(raw).value); }
  }

  lemma NoValueNoSetting()
    ensures ParseMode("").None? && ParseAttribution("").None?
  {
    assert Trim("") == "" && Lower("") == "";
  }

  lemma SetLines(net: AddrSyntax, ls: seq<string>, s: Setting)
    ensures var (out, written) := Replaced(ls, s.Key(), Line(s.Key(), s.Spelling(), None));
            LoadLines(net, out) == SetTo(s)(LoadLines(net, ls), written)
  {
    var key, line := s.Key(), Line(s.Key(), s.Spelling(), None);
    SettingLineMeans(net, s);
    UnsetThenSet(s, EffectOf(net, line));
    hide EffectOf, Apply, IsKey, Line, LoadLines, Replaced, Setting.Key, Setting.Spelling, SetTo, Sets;
    forall m, l, w | l in ls
      ensures SetTo(s)(Apply(m, EffectOf(net, l)), w) == if IsKey(key, l) then SetTo(s)(m, w) else Apply(SetTo(s)(m, w), EffectOf(net, l))
    {
      KeyEffect(net, s, l);
      SettingStep(s, m, EffectOf(net, l), w);
      if EffectOf(net, l).Nop? { NopChangesNothing(m); NopChangesNothing(SetTo(s)(m, w)); }
    }
    ReplacedMeaning(net, ls, key, line, SetTo(s));
  }

  function SettingEffect(s: Setting): Effect {
    match s case ModeSetting(m) => SetMode(m) case AttributionSetting(a) => SetAttribution(a)
  }

  lemma UnsetThenSet(s: Setting, e: Effect)
    requires e == SettingEffect(s)
    ensures SetTo(s)(NOTHING, false) == NOTHING
    ensures forall m :: Apply(SetTo(s)(m, false), e) == SetTo(s)(m, true)
    ensures forall m :: SetTo(s)(m, true) == s.Set(m)
  {
    match s {
      case ModeSetting(_) => assert s.Unset(NOTHING) == NOTHING;
      case AttributionSetting(_) => assert s.Unset(NOTHING) == NOTHING;
    }
    forall m ensures Apply(SetTo(s)(m, false), e) == SetTo(s)(m, true) {
      assert Apply(s.Unset(m), e) == s.Set(m);
    }
  }

  /** Setting a directive changes that one setting of any file, whatever stale
      lines for it stood there. */
  lemma SetDirectiveMeaning(net: AddrSyntax, text: string, s: Setting)
    ensures Load(net, WithDirective(text, s.Key(), s.Spelling())) == s.Set(Load(net, text))
  {
    var key, line := s.Key(), Line(s.Key(), s.Spelling(), None);
    SettingLineMeans(net, s);
    UnsetThenSet(s, EffectOf(net, line));
    var ls := Lines(text);
    SetLines(net, ls, s);
    hide EffectOf, Apply, IsKey, Lines, Line, LoadLines, Replaced, Setting.Key, Setting.Spelling, SetTo, Setting.Set, SettingEffect;
    var (out, written) := Replaced(ls, key, line);
    LoadAppend(net, out, line);
    var result := if written then out else out + [line];
    ReplacedIsLines(ls, key, line);
    LinesOfUnlines(result);
    LoadIgnoresCr(net, result);
  }

  lemma SettingLineMeans(net: AddrSyntax, s: Setting)
    ensures var line := Line(s.Key(), s.Spelling(), None);
            && '\n' !in line
            && EffectOf(net, line) == SettingEffect(s)
  {
    SpellingMeans(s);
    hide Line, EffectOf, Setting.Key, Setting.Spelling, ParseKind, SettingOf;
    LineMeans(net, "", s.Key(), s.Spelling(), None);
    LineHasNoNewline(s.Key(), s.Spelling(), None);
    assert "" + Line(s.Key(), s.Spelling(), None) == Line(s.Key(), s.Spelling(), None);
  }

  lemma {:induction false} ReplacedIsLines(ls: seq<string>, key: string, line: string)
    requires '\n' !in line && forall l :: l in ls ==> '\n' !in l
    ensures forall l :: l in Replaced(ls, key, line).0 ==> '\n' !in l
  {
    hide IsKey;
    if ls != [] {
      forall l | l in ls[..|ls| - 1] ensures l in ls {}
      ReplacedIsLines(ls[..|ls| - 1], key, line);
      assert ls[|ls| - 1] in ls;
    }
  }
}
