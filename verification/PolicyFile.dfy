/** The policy file's editors as exact operations on what the file means.
    Source: src/policy.rs, lines 473-657, 768-796 and 1346-1418. */
module PolicyFile {
  import opened Options
  import opened Text
  import opened Targets
  import opened Policy
  import opened PolicyRecord

  // ---- dropping lines ----

  function Keep(ls: seq<string>, hit: string -> bool): seq<string> {
    if ls == [] then [] else
      Keep(ls[..|ls| - 1], hit) + if hit(ls[|ls| - 1]) then [] else [ls[|ls| - 1]]
  }

  function Count(ls: seq<string>, hit: string -> bool): nat {
    if ls == [] then 0 else Count(ls[..|ls| - 1], hit) + if hit(ls[|ls| - 1]) then 1 else 0
  }

  lemma KeepNothing(hit: string -> bool)
    ensures Keep([], hit) == [] && Count([], hit) == 0 && Unlines([]) == ""
  {
  }

  lemma KeepStep(ls: seq<string>, hit: string -> bool, i: nat)
    requires i < |ls|
    ensures Keep(ls[..i + 1], hit) == if hit(ls[i]) then Keep(ls[..i], hit) else Keep(ls[..i], hit) + [ls[i]]
    ensures Count(ls[..i + 1], hit) == if hit(ls[i]) then Count(ls[..i], hit) + 1 else Count(ls[..i], hit)
  {
    assert ls[..i + 1][..i] == ls[..i];
    assert Keep(ls[..i], hit) + [] == Keep(ls[..i], hit);
  }

  /** What an editor leaves behind: the file untouched when nothing is hit, else
      its other lines, in order, each with a newline. */
  function Rewrite(text: string, hit: string -> bool): string {
    if Count(Lines(text), hit) == 0 then text else Unlines(Keep(Lines(text), hit))
  }

  lemma {:induction false} KeepMembers(ls: seq<string>, hit: string -> bool)
    ensures forall l :: l in Keep(ls, hit) <==> l in ls && !hit(l)
    ensures Count(ls, hit) == 0 ==> Keep(ls, hit) == ls
    ensures Count(ls, hit) > 0 <==> exists l :: l in ls && hit(l)
  {
    if ls != [] {
      var init, last := ls[..|ls| - 1], ls[|ls| - 1];
      assert ls == init + [last];
      KeepMembers(init, hit);
      if exists l :: l in ls && hit(l) {
        var l :| l in ls && hit(l);
        assert l in init || l == last;
      }
    }
  }

  lemma {:induction false} UnlinesAppend(ls: seq<string>, l: string)
    ensures Unlines(ls + [l]) == Unlines(ls) + l + "\n"
  {
    if ls == [] {
      assert Unlines([l][1..]) == "";
      assert l + "\n" + "" == "" + l + "\n";
    } else {
      UnlinesAppend(ls[1..], l);
      assert (ls + [l])[1..] == ls[1..] + [l];
      assert ls[0] + "\n" + (Unlines(ls[1..]) + l + "\n") == (ls[0] + "\n" + Unlines(ls[1..])) + l + "\n";
    }
  }

  lemma {:induction false} LoadIgnoresCr(net: AddrSyntax, ls: seq<string>)
    ensures LoadLines(net, StripAll(ls)) == LoadLines(net, ls)
  {
    hide EffectOf, Apply, StripCr;
    if ls != [] {
      var n := |ls| - 1;
      assert StripAll(ls)[..n] == StripAll(ls[..n]);
      LoadIgnoresCr(net, ls[..n]);
      EffectIgnoresCr(net, ls[n]);
    }
  }

  lemma RewriteMeaning(net: AddrSyntax, text: string, hit: string -> bool)
    ensures Load(net, Rewrite(text, hit)) == LoadLines(net, Keep(Lines(text), hit))
  {
    hide Lines, LoadLines, Keep, Count;
    var ls := Lines(text);
    KeepMembers(ls, hit);
    if Count(ls, hit) > 0 {
      LinesOfUnlines(Keep(ls, hit));
      LoadIgnoresCr(net, Keep(ls, hit));
    }
  }

  /** If dropping the hit lines commutes with an operation line by line, the
      rewritten file means that operation's result. */
  lemma {:induction false} KeepCommutes(net: AddrSyntax, ls: seq<string>, hit: string -> bool, op: Meaning -> Meaning)
    requires op(NOTHING) == NOTHING
    requires forall m, l :: l in ls ==>
      op(Apply(m, EffectOf(net, l))) == if hit(l) then op(m) else Apply(op(m), EffectOf(net, l))
    ensures LoadLines(net, Keep(ls, hit)) == op(LoadLines(net, ls))
  {
    hide EffectOf, Apply;
    if ls != [] {
      var init, last := ls[..|ls| - 1], ls[|ls| - 1];
      assert last in ls;
      forall l | l in init ensures l in ls {}
      KeepCommutes(net, init, hit, op);
      if hit(last) {
        assert Keep(init, hit) + [] == Keep(init, hit);
      } else {
        LoadAppend(net, Keep(init, hit), last);
      }
    }
  }

  lemma {:induction false} LoadedRules(net: AddrSyntax, ls: seq<string>, r: Rule)
    ensures r in LoadLines(net, ls).rules <==> exists l :: l in ls && EffectOf(net, l) == Insert(r)
  {
    hide EffectOf;
    if ls != [] {
      var init, last := ls[..|ls| - 1], ls[|ls| - 1];
      assert ls == init + [last];
      LoadedRules(net, init, r);
      if exists l :: l in ls && EffectOf(net, l) == Insert(r) {
        var l :| l in ls && EffectOf(net, l) == Insert(r);
        assert l in init || l == last;
      }
    }
  }

  // ---- what a rewrite does to the lines it keeps ----

  /** The text with the hit lines cut out and every other character in place. */
  function Others(text: string, hit: string -> bool): string
    decreases |text|
  {
    if text == "" then ""
    else
      var i := IndexOf(text, '\n');
      if i == |text| then (if hit(text) then "" else text)
      else (if hit(StripCr(text[..i])) then "" else text[..i + 1]) + Others(text[i + 1..], hit)
  }

  /** Every line that is not hit ends in a newline with no carriage return before it. */
  predicate PlainOthers(text: string, hit: string -> bool)
    decreases |text|
  {
    text == "" ||
    var i := IndexOf(text, '\n');
    if i == |text| then hit(text)
    else (hit(StripCr(text[..i])) || !EndsInCr(text[..i])) && PlainOthers(text[i + 1..], hit)
  }

  lemma {:induction false} KeepCons(l: string, ls: seq<string>, hit: string -> bool)
    ensures Keep([l] + ls, hit) == (if hit(l) then [] else [l]) + Keep(ls, hit)
    ensures Count([l] + ls, hit) == (if hit(l) then 1 else 0) + Count(ls, hit)
    decreases |ls|
  {
    var all := [l] + ls;
    if ls == [] {
      assert all[..|all| - 1] == [];
    } else {
      assert all[..|all| - 1] == [l] + ls[..|ls| - 1];
      KeepCons(l, ls[..|ls| - 1], hit);
    }
  }

  lemma KeepOne(l: string, hit: string -> bool)
    ensures Keep([l], hit) == (if hit(l) then [] else [l]) && Count([l], hit) == if hit(l) then 1 else 0
  {
    assert [l][..0] == [];
  }

  /** Writing a line and what follows it gives back the original just when the
      line has no carriage return to lose and the rest comes back. */
  lemma StrippedComesBack(l: string, rest: string, rest': string)
    ensures StripCr(l) + "\n" + rest' == l + "\n" + rest <==> !EndsInCr(l) && rest' == rest
  {
    var a, b := StripCr(l) + "\n" + rest', l + "\n" + rest;
    if EndsInCr(l) {
      assert a[|l| - 1] == '\n' && b[|l| - 1] == '\r';
    } else if a == b {
      assert a[|l| + 1..] == rest' && b[|l| + 1..] == rest;
    }
  }

  lemma UnlinesOfCons(l: string, ls: seq<string>)
    ensures Unlines([l] + ls) == l + "\n" + Unlines(ls)
  {
    assert ([l] + ls)[1..] == ls;
  }

  lemma UnlinesOfOne(l: string)
    ensures Unlines([l]) == l + "\n" && Unlines([l]) != l
  {
    assert Unlines([l][1..]) == "";
    assert l + "\n" + "" == l + "\n";
  }

  lemma LinesOfLast(text: string)
    requires text != "" && '\n' !in text
    ensures Lines(text) == [text]
  {
  }

  /** The other lines come through a rewrite untouched if and only if each of them
      ends in a plain newline. */
  lemma {:induction false} KeptAreOthers(text: string, hit: string -> bool)
    ensures Unlines(Keep(Lines(text), hit)) == Others(text, hit) <==> PlainOthers(text, hit)
    decreases |text|
  {
    var i := IndexOf(text, '\n');
    if text == "" {
      LinesOfNothing();
    } else if i == |text| {
      hide Lines, Keep, Unlines;
      LinesOfLast(text);
      KeepOne(text, hit);
      UnlinesOfOne(text);
      KeepNothing(hit);
    } else {
      var l, rest := text[..i], text[i + 1..];
      hide Lines, Keep, Unlines;
      CutAt(text, i);
      LinesOfFirst(l, rest);
      KeptAreOthers(rest, hit);
      KeepCons(StripCr(l), Lines(rest), hit);
      if hit(StripCr(l)) {
        assert [] + Keep(Lines(rest), hit) == Keep(Lines(rest), hit);
        assert "" + Others(rest, hit) == Others(rest, hit);
      } else {
        UnlinesOfCons(StripCr(l), Keep(Lines(rest), hit));
        StrippedComesBack(l, Others(rest, hit), Unlines(Keep(Lines(rest), hit)));
        assert text[..i + 1] == l + "\n";
      }
    }
  }

  lemma {:induction false} NothingHit(text: string, hit: string -> bool)
    requires Count(Lines(text), hit) == 0
    ensures Others(text, hit) == text
    decreases |text|
  {
    var i := IndexOf(text, '\n');
    if text == "" {
    } else if i == |text| {
      hide Lines, Keep, Count;
      LinesOfLast(text);
      KeepOne(text, hit);
    } else {
      var l, rest := text[..i], text[i + 1..];
      hide Lines, Keep, Count;
      CutAt(text, i);
      LinesOfFirst(l, rest);
      KeepCons(StripCr(l), Lines(rest), hit);
      NothingHit(rest, hit);
      assert text == text[..i + 1] + rest;
    }
  }

  /** An edit leaves the lines it does not hit exactly as they were if and only if
      it hits none or each of the others ends in a plain newline: otherwise the
      rewrite loses a carriage return or adds the newline the last line lacked. */
  lemma RewriteSparesOthers(text: string, hit: string -> bool)
    ensures Rewrite(text, hit) == Others(text, hit) <==> Count(Lines(text), hit) == 0 || PlainOthers(text, hit)
  {
    hide Lines, Keep, Count, Unlines, Others, PlainOthers;
    KeptAreOthers(text, hit);
    if Count(Lines(text), hit) == 0 {
      NothingHit(text, hit);
    }
  }

  function Nobody(): string -> bool { (raw: string) => false }

  lemma {:induction false} PlainWithoutHits(text: string)
    ensures PlainOthers(text, Nobody()) <==> Terminated(text) && !HasCrLf(text)
    decreases |text|
  {
    var i := IndexOf(text, '\n');
    if text == "" {
    } else if i == |text| {
      assert text[|text| - 1] in text;
    } else {
      var l, rest := text[..i], text[i + 1..];
      PlainWithoutHits(rest);
      CrLfOfFirst(text, i);
    }
  }

  lemma CrLfOfFirst(text: string, i: nat)
    requires i < |text| && text[i] == '\n' && '\n' !in text[..i]
    ensures HasCrLf(text) <==> EndsInCr(text[..i]) || HasCrLf(text[i + 1..])
    ensures Terminated(text) <==> Terminated(text[i + 1..])
  {
    var rest := text[i + 1..];
    if HasCrLf(text) {
      var j :| 0 < j < |text| && text[j - 1] == '\r' && text[j] == '\n';
      assert forall m :: 0 <= m < i ==> text[m] == text[..i][m];
      if j > i {
        assert rest[j - i - 1] == '\n' && (j - i - 2 >= 0 ==> rest[j - i - 2] == '\r');
      }
    }
    if HasCrLf(rest) {
      var j :| 0 < j < |rest| && rest[j - 1] == '\r' && rest[j] == '\n';
      assert text[i + 1 + j] == '\n' && text[i + 1 + j - 1] == '\r';
    }
  }

  lemma {:induction false} NobodyHits(ls: seq<string>)
    ensures Keep(ls, Nobody()) == ls && Count(ls, Nobody()) == 0
  {
    KeepMembers(ls, Nobody());
  }

  /** Splitting into lines and writing them out again changes nothing if and only
      if the text ends in a newline and none has a carriage return before it. */
  lemma UnlinesOfLines(text: string)
    ensures Unlines(Lines(text)) == text <==> Terminated(text) && !HasCrLf(text)
  {
    NobodyHits(Lines(text));
    hide Lines, Keep, Count, Unlines, Others, PlainOthers, HasCrLf;
    KeptAreOthers(text, Nobody());
    NothingHit(text, Nobody());
    PlainWithoutHits(text);
  }

  function Only(l: string): string -> bool { (raw: string) => raw == l }

  lemma KeepTwo(a: string, b: string, hit: string -> bool)
    ensures Keep([a, b], hit) == (if hit(a) then [] else [a]) + if hit(b) then [] else [b]
    ensures Count([a, b], hit) == (if hit(a) then 1 else 0) + if hit(b) then 1 else 0
  {
    assert [a, b] == [a] + [b];
    KeepCons(a, [b], hit);
    KeepOne(b, hit);
  }

  /** Removing the line y takes the carriage return off the line x. */
  lemma RewriteTakesCr()
    ensures Rewrite("x\r\ny\n", Only("y")) == "x\n" && Others("x\r\ny\n", Only("y")) == "x\r\n"
  {
    hide *;
    LinesOfFirst("x\r", "y\n");
    LinesOfFirst("y", "");
    LinesOfNothing();
    OthersOfTwo("x\r", "y\n", Only("y"));
    OthersOfTwo("y", "", Only("y"));
    OthersOfLast("", Only("y"));
    OnlyY();
    KeepTwo("x", "y", Only("y"));
    UnlinesOfOne("x");
    assert ["x"] + (["y"] + []) == ["x", "y"] && ["x"] + [] == ["x"];
    assert "x\r" + "\n" + "y\n" == "x\r\ny\n" && "y" + "\n" + "" == "y\n" && "x\r" + "\n" + ("" + "") == "x\r\n";
    RewriteHit("x\r\ny\n", Only("y"));
  }

  /** Removing it gives an unterminated line x the newline it lacked. */
  lemma RewriteAddsNewline()
    ensures Rewrite("y\nx", Only("y")) == "x\n" && Others("y\nx", Only("y")) == "x"
  {
    hide *;
    LinesOfFirst("y", "x");
    LinesOfLast("x");
    OthersOfTwo("y", "x", Only("y"));
    OthersOfLast("x", Only("y"));
    OnlyY();
    KeepTwo("y", "x", Only("y"));
    UnlinesOfOne("x");
    assert ["y"] + ["x"] == ["y", "x"] && [] + ["x"] == ["x"];
    assert "y" + "\n" + "x" == "y\nx" && "" + "x" == "x";
    RewriteHit("y\nx", Only("y"));
  }

  lemma OnlyY()
    ensures Only("y")("y") && !Only("y")("x") && !Only("y")("")
    ensures StripCr("x\r") == "x" && StripCr("y") == "y"
  {
  }

  lemma RewriteHit(text: string, hit: string -> bool)
    requires Count(Lines(text), hit) > 0
    ensures Rewrite(text, hit) == Unlines(Keep(Lines(text), hit))
  {
  }

  lemma OthersOfTwo(l: string, rest: string, hit: string -> bool)
    requires '\n' !in l
    ensures Others(l + "\n" + rest, hit) == (if hit(StripCr(l)) then "" else l + "\n") + Others(rest, hit)
  {
    assert "\n" == ['\n'];
    var t := l + ['\n'] + rest;
    IndexOfAppend(l, '\n', rest);
    assert t[..|l|] == l && t[..|l| + 1] == l + "\n" && t[|l| + 1..] == rest;
  }

  lemma OthersOfLast(text: string, hit: string -> bool)
    requires '\n' !in text
    ensures Others(text, hit) == if hit(text) then "" else text
  {
  }

  // ---- one rule, however spelled ----

  /** A line's directive, for the editors: those without a value do not count. */
  function ParseLine(raw: string): Option<Directive> {
    match Tokens(raw)
    case Some(d) => if d.value == "" then None else Some(d)
    case None => None
  }

  function NormaliseKind(net: AddrSyntax, k: Kind, v: string): string {
    match k.shape
    case ToApp => v
    case ToHost => var t := SplitTarget(net, v); JoinTarget(net, Lower(t.host), t.port)
    case ToHostFrom =>
      (match SplitScoped(v)
       case Some((d, e)) => var t := SplitTarget(net, d); JoinTarget(net, Lower(t.host), t.port) + [' '] + e
       case None => v)
    case ToDest =>
      var t := SplitTarget(net, v);
      (match net.parse(t.host) case Some(a) => JoinTarget(net, net.show(a), t.port) case None => v)
    case ToDestFrom =>
      (match SplitScoped(v)
       case Some((d, e)) =>
         var t := SplitTarget(net, d);
         (match net.parse(t.host) case Some(a) => JoinTarget(net, net.show(a), t.port) + [' '] + e case None => v)
       case None => v)
  }

  /** The one spelling two values of a kind are compared in. */
  function Normalise(net: AddrSyntax, key: string, v: string): string {
    match ParseKind(key)
    case Some(k) => NormaliseKind(net, k, v)
    case None => v
  }

  predicate RuleHit(net: AddrSyntax, key: string, want: string, raw: string) {
    var d := ParseLine(raw);
    d.Some? && d.value.key == key && Normalise(net, key, d.value.value) == want
  }

  lemma NormaliseIsSpelled(net: AddrSyntax, k: Kind, v: string)
    ensures RuleOf(net, k, v).Some? ==> NormaliseKind(net, k, v) == Spelled(net, RuleOf(net, k, v).value, ' ')
    ensures RuleOf(net, k, v).Some? ==> LowerRule(RuleOf(net, k, v).value) == RuleOf(net, k, v).value
    ensures RuleOf(net, k, v).None? ==> NormaliseKind(net, k, v) == v
  {
    hide SplitTarget, SplitScoped, JoinTarget, Lower;
    match k.shape {
      case ToHost => LowerIsIdempotent(SplitTarget(net, v).host);
      case ToHostFrom => if SplitScoped(v).Some? { LowerIsIdempotent(SplitTarget(net, SplitScoped(v).value.0).host); }
      case _ =>
    }
  }

  lemma EmptyIsNoAddress(net: AddrSyntax)
    requires Lawful(net)
    ensures net.parse("").None?
  {
    hide Lawful;
    if net.parse("").Some? { AddressFacts(net, ""); }
  }

  lemma EmptyTarget(net: AddrSyntax)
    requires Lawful(net)
    ensures SplitTarget(net, "") == Target("", None) && net.parse("").None? && SplitScoped("").None?
    ensures Lower("") == "" && JoinTarget(net, "", None) == ""
  {
    hide Bracketed, HostColonPort, ParseU16, Lawful, FirstWs, Trim, LastIndexOf;
    EmptyIsNoAddress(net);
    NoColonNoPort("");
    NotBracketed();
  }

  lemma NotBracketed()
    ensures !Bracketed("") && FirstWs("") == 0 && Trim("") == ""
  {
  }

  lemma EmptyNormalForm(net: AddrSyntax, k: Kind)
    requires Lawful(net)
    ensures NormaliseKind(net, k, "") == ""
  {
    EmptyTarget(net);
    hide Lawful, SplitTarget, SplitScoped, JoinTarget, Lower;
  }

  /** Among spellable rules, equal normal forms mean the same rule. */
  lemma NormalFormIsTheRule(net: AddrSyntax, k: Kind, v: string, r0: Rule)
    requires Lawful(net) && SpellableRule(net, r0) && LowerRule(r0) == r0 && r0.KindOf() == k
    requires RuleOf(net, k, v).Some? ==> SpellableRule(net, RuleOf(net, k, v).value)
    ensures NormaliseKind(net, k, v) == Spelled(net, r0, ' ') <==> RuleOf(net, k, v) == Some(r0)
  {
    RuleHasItsKind(net, k, v);
    hide Lawful, SpellableRule, Spelled, RuleOf, NormaliseKind;
    NormaliseIsSpelled(net, k, v);
    SpelledMeansRule(net, r0, ' ');
    if RuleOf(net, k, v).Some? { SpelledMeansRule(net, RuleOf(net, k, v).value, ' '); }
  }

  /** Rules of one kind with one normal form: what the editors cannot tell apart. */
  predicate SameSpelling(net: AddrSyntax, r: Rule, r0: Rule) {
    r.KindOf() == r0.KindOf() && Spelled(net, r, ' ') == Spelled(net, r0, ' ')
  }

  ghost predicate Spelt(net: AddrSyntax, rules: set<Rule>, r0: Rule) {
    exists r :: r in rules && SameSpelling(net, r, r0)
  }

  /** No other rule is spelled like this one, as is so of rules that can be
      spelled back. */
  ghost predicate Unconfused(net: AddrSyntax, rules: set<Rule>, r0: Rule) {
    forall r :: r in rules && SameSpelling(net, r, r0) ==> r == r0
  }

  lemma SpellableIsUnconfused(net: AddrSyntax, rules: set<Rule>, r0: Rule)
    requires Lawful(net) && SpellableRule(net, r0) && LowerRule(r0) == r0
    requires forall r :: r in rules ==> SpellableRule(net, r) && LowerRule(r) == r
    ensures Unconfused(net, rules, r0)
  {
    hide Lawful, SpellableRule, Spelled, RuleOf, LowerRule;
    forall r | r in rules && SameSpelling(net, r, r0) ensures r == r0 {
      SpelledMeansRule(net, r, ' ');
      SpelledMeansRule(net, r0, ' ');
    }
  }

  lemma NormalFormIsASpelling(net: AddrSyntax, k: Kind, v: string, r0: Rule)
    requires Lawful(net) && SpellableRule(net, r0) && LowerRule(r0) == r0 && r0.KindOf() == k
    ensures NormaliseKind(net, k, v) == Spelled(net, r0, ' ')
       <==> RuleOf(net, k, v).Some? && SameSpelling(net, RuleOf(net, k, v).value, r0)
    ensures Spelled(net, r0, ' ') != ""
  {
    RuleHasItsKind(net, k, v);
    hide Lawful, SpellableRule, Spelled, RuleOf, NormaliseKind, LowerRule;
    NormaliseIsSpelled(net, k, v);
    SpelledMeansRule(net, r0, ' ');
  }

  /** The lines hit are exactly those of rules with the same spelling. */
  lemma HitIsSpelling(net: AddrSyntax, key: string, r0: Rule, raw: string)
    requires Lawful(net) && SpellableRule(net, r0) && LowerRule(r0) == r0 && KindName(r0.KindOf()) == key
    ensures RuleHit(net, key, Spelled(net, r0, ' '), raw)
       <==> EffectOf(net, raw).Insert? && SameSpelling(net, EffectOf(net, raw).r, r0)
  {
    hide Spelled, KindName, Lawful, SpellableRule, LowerRule, DirectiveEffect, Normalise, SameSpelling, Rule.KindOf;
    if Tokens(raw).Some? {
      DirectiveHit(net, Tokens(raw).value, r0);
    }
  }

  lemma DirectiveHit(net: AddrSyntax, d: Directive, r0: Rule)
    requires Lawful(net) && SpellableRule(net, r0) && LowerRule(r0) == r0
    ensures d.value != "" && d.key == KindName(r0.KindOf()) && Normalise(net, d.key, d.value) == Spelled(net, r0, ' ')
       <==> DirectiveEffect(net, d).Insert? && SameSpelling(net, DirectiveEffect(net, d).r, r0)
  {
    var k0 := r0.KindOf();
    ParseKindName(k0);
    hide Lawful, SpellableRule, Spelled, RuleOf, NormaliseKind, KindName, ParseKind, LowerRule, SettingOf, SameSpelling, Rule.KindOf;
    if ParseKind(d.key).Some? {
      var k := ParseKind(d.key).value;
      EmptyNormalForm(net, k);
      SpellingNeedsKind(net, k, d.value, r0);
      if k == k0 { NormalFormIsASpelling(net, k, d.value, r0); }
    } else {
      SettingIsNoRule(d.key, d.value);
    }
  }

  lemma SpellingNeedsKind(net: AddrSyntax, k: Kind, v: string, r0: Rule)
    ensures RuleOf(net, k, v).Some? && SameSpelling(net, RuleOf(net, k, v).value, r0) ==> k == r0.KindOf()
  {
    RuleHasItsKind(net, k, v);
    hide RuleOf, Spelled;
  }

  function RuleHits(net: AddrSyntax, key: string, want: string): string -> bool {
    (raw: string) => RuleHit(net, key, want, raw)
  }

  function WithoutRule(r: Rule): Meaning -> Meaning {
    (m: Meaning) => m.(rules := m.rules - {r})
  }

  lemma DropRuleCommutes(m: Meaning, e: Effect, r: Rule)
    ensures WithoutRule(r)(Apply(m, e)) == if e == Insert(r) then WithoutRule(r)(m) else Apply(WithoutRule(r)(m), e)
  {
    if e.Insert? && e.r != r {
      assert m.rules + {e.r} - {r} == m.rules - {r} + {e.r};
    }
    if e == Insert(r) {
      assert m.rules + {r} - {r} == m.rules - {r};
    }
  }

  method RemoveRule(net: AddrSyntax, text: string, key: string, value: string) returns (removed: nat, text': string)
    ensures var hit := RuleHits(net, key, Normalise(net, key, value));
            removed == Count(Lines(text), hit) && text' == Rewrite(text, hit)
  {
    var want := Normalise(net, key, value);
    ghost var hit := RuleHits(net, key, want);
    hide Lines, RuleHit, Normalise, Keep, Count;
    var ls := Lines(text);
    var kept := "";
    removed := 0;
    KeepNothing(hit);
    for i := 0 to |ls|
      invariant kept == Unlines(Keep(ls[..i], hit)) && removed == Count(ls[..i], hit)
    {
      KeepStep(ls, hit, i);
      if RuleHit(net, key, want, ls[i]) {
        removed := removed + 1;
      } else {
        UnlinesAppend(Keep(ls[..i], hit), ls[i]);
        kept := kept + ls[i] + "\n";
      }
    }
    assert ls[..|ls|] == ls;
    text' := if removed > 0 then kept else text;
  }

  lemma EditMeaning(net: AddrSyntax, text: string, hit: string -> bool, op: Meaning -> Meaning)
    requires op(NOTHING) == NOTHING
    requires forall m, l :: l in Lines(text) ==>
      op(Apply(m, EffectOf(net, l))) == if hit(l) then op(m) else Apply(op(m), EffectOf(net, l))
    ensures Load(net, Rewrite(text, hit)) == op(Load(net, text))
  {
    hide EffectOf, Lines, LoadLines, Apply, Keep, Rewrite;
    RewriteMeaning(net, text, hit);
    KeepCommutes(net, Lines(text), hit, op);
  }

  lemma DropRuleEdit(net: AddrSyntax, text: string, hit: string -> bool, r: Rule)
    requires forall l :: l in Lines(text) ==> (hit(l) <==> EffectOf(net, l) == Insert(r))
    ensures Load(net, Rewrite(text, hit)) == WithoutRule(r)(Load(net, text))
  {
    hide EffectOf, Lines, Load, Apply, Rewrite;
    assert WithoutRule(r)(NOTHING) == NOTHING;
    forall m, l | l in Lines(text)
      ensures WithoutRule(r)(Apply(m, EffectOf(net, l))) == if hit(l) then WithoutRule(r)(m) else Apply(WithoutRule(r)(m), EffectOf(net, l))
    {
      DropRuleCommutes(m, EffectOf(net, l), r);
    }
    EditMeaning(net, text, hit, WithoutRule(r));
  }

  lemma HitsAreSpellings(net: AddrSyntax, text: string, k: Kind, value: string)
    requires Lawful(net) && RuleOf(net, k, value).Some? && SpellableRule(net, RuleOf(net, k, value).value)
    ensures var r := RuleOf(net, k, value).value;
            var hit := RuleHits(net, KindName(k), Normalise(net, KindName(k), value));
            && (forall raw :: raw in Lines(text) ==>
                  (hit(raw) <==> EffectOf(net, raw).Insert? && SameSpelling(net, EffectOf(net, raw).r, r)))
            && (Count(Lines(text), hit) > 0 <==> Spelt(net, Load(net, text).rules, r))
  {
    var r, ls := RuleOf(net, k, value).value, Lines(text);
    ParseKindName(k);
    NormaliseIsSpelled(net, k, value);
    RuleHasItsKind(net, k, value);
    var hit := RuleHits(net, KindName(k), Normalise(net, KindName(k), value));
    hide RuleHit, EffectOf, Spelled, SpellableRule, Lawful, RuleOf, NormaliseKind, KindName, Lines, LoadLines, Count, SameSpelling;
    forall raw ensures hit(raw) <==> EffectOf(net, raw).Insert? && SameSpelling(net, EffectOf(net, raw).r, r) {
      HitIsSpelling(net, KindName(k), r, raw);
    }
    KeepMembers(ls, hit);
    SpeltByALine(net, ls, r);
  }

  lemma SpeltByALine(net: AddrSyntax, ls: seq<string>, r0: Rule)
    ensures Spelt(net, LoadLines(net, ls).rules, r0)
       <==> exists l :: l in ls && EffectOf(net, l).Insert? && SameSpelling(net, EffectOf(net, l).r, r0)
  {
    hide SameSpelling, LoadLines, EffectOf;
    if Spelt(net, LoadLines(net, ls).rules, r0) {
      var r :| r in LoadLines(net, ls).rules && SameSpelling(net, r, r0);
      LoadedRules(net, ls, r);
    }
    if exists l :: l in ls && EffectOf(net, l).Insert? && SameSpelling(net, EffectOf(net, l).r, r0) {
      var l :| l in ls && EffectOf(net, l).Insert? && SameSpelling(net, EffectOf(net, l).r, r0);
      LoadedRules(net, ls, EffectOf(net, l).r);
    }
  }

  /** A rule spelled like the one removed goes with it. */
  lemma ConfusedGoesToo(net: AddrSyntax, text: string, hit: string -> bool, r: Rule, r0: Rule)
    requires forall raw :: raw in Lines(text) ==>
               (hit(raw) <==> EffectOf(net, raw).Insert? && SameSpelling(net, EffectOf(net, raw).r, r0))
    requires SameSpelling(net, r, r0)
    ensures r !in Load(net, Rewrite(text, hit)).rules
  {
    hide EffectOf, Lines, LoadLines, Keep, Count, Rewrite, SameSpelling;
    RewriteMeaning(net, text, hit);
    KeepMembers(Lines(text), hit);
    LoadedRules(net, Keep(Lines(text), hit), r);
  }

  /** Removing a rule, however it is spelled in the file or the call, deletes just
      that rule if and only if no other rule of the file has its spelling, and
      reports none exactly when no rule of the file has it. */
  lemma RemoveRuleMeaning(net: AddrSyntax, text: string, k: Kind, value: string)
    requires Lawful(net) && RuleOf(net, k, value).Some? && SpellableRule(net, RuleOf(net, k, value).value)
    ensures var r, m := RuleOf(net, k, value).value, Load(net, text);
            var hit := RuleHits(net, KindName(k), Normalise(net, KindName(k), value));
            && (Load(net, Rewrite(text, hit)) == m.(rules := m.rules - {r}) <==> Unconfused(net, m.rules, r))
            && (Count(Lines(text), hit) > 0 <==> Spelt(net, m.rules, r))
  {
    hide RuleOf, Normalise, KindName, Lines, Load, Count, Rewrite, SpellableRule, Lawful, RuleHits, SameSpelling, EffectOf;
    HitsAreSpellings(net, text, k, value);
    var r, m := RuleOf(net, k, value).value, Load(net, text);
    var hit := RuleHits(net, KindName(k), Normalise(net, KindName(k), value));
    if Unconfused(net, m.rules, r) {
      UnconfusedLines(net, text, r);
      DropRuleEdit(net, text, hit, r);
    } else {
      var r' :| r' in m.rules && SameSpelling(net, r', r) && r' != r;
      ConfusedGoesToo(net, text, hit, r', r);
    }
  }

  lemma UnconfusedLines(net: AddrSyntax, text: string, r0: Rule)
    requires Unconfused(net, Load(net, text).rules, r0)
    ensures forall raw :: raw in Lines(text) ==>
              (EffectOf(net, raw).Insert? && SameSpelling(net, EffectOf(net, raw).r, r0) <==> EffectOf(net, raw) == Insert(r0))
  {
    hide EffectOf, Lines, LoadLines, Spelled;
    forall raw | raw in Lines(text) && EffectOf(net, raw).Insert? ensures EffectOf(net, raw).r in LoadLines(net, Lines(text)).rules {
      LoadedRules(net, Lines(text), EffectOf(net, raw).r);
    }
  }

  // ---- adding a rule ----

  datatype AddResult = Rejected | Added | Present

  /** The checks add_rule makes of its arguments. */
  predicate Acceptable(net: AddrSyntax, key: string, value: string) {
    && ParseKind(key).Some?
    && var k := ParseKind(key).value;
       && (k.shape.ToHostFrom? || k.shape.ToDestFrom? ==>
             SplitScoped(value).Some? && (k.shape.ToDestFrom? ==> net.parse(SplitTarget(net, SplitScoped(value).value.0).host).Some?))
       && (k.shape.ToDest? ==> net.parse(SplitTarget(net, value).host).Some?)
  }

  function NoteComment(note: Option<string>): Option<string> {
    match note case Some(n) => Some([' '] + n) case None => None
  }

  method AddRule(net: AddrSyntax, text: string, key: string, value: string, note: Option<string>)
    returns (res: AddResult, text': string)
    ensures res.Rejected? <==> !Acceptable(net, key, value)
    ensures res.Present? <==> Acceptable(net, key, value) && Count(Lines(text), RuleHits(net, key, Normalise(net, key, value))) > 0
    ensures text' == if res.Added? then text + Line(key, Normalise(net, key, value), NoteComment(note)) + "\n" else text
  {
    hide Lines, RuleHit, Normalise, Acceptable, Line, Count, Keep;
    if !Acceptable(net, key, value) { return Rejected, text; }
    var norm := Normalise(net, key, value);
    var ls := Lines(text);
    ghost var hit := RuleHits(net, key, norm);
    KeepMembers(ls, hit);
    for i := 0 to |ls|
      invariant forall j :: 0 <= j < i ==> !hit(ls[j])
    {
      if RuleHit(net, key, norm, ls[i]) { assert hit(ls[i]); return Present, text; }
    }
    res := Added;
    text' := text + Line(key, norm, NoteComment(note)) + "\n";
  }

  /** add_rule's refusals are exactly the values that mean no rule. */
  lemma AcceptableMeansRule(net: AddrSyntax, key: string, value: string)
    ensures Acceptable(net, key, value) <==> ParseKind(key).Some? && RuleOf(net, ParseKind(key).value, value).Some?
  {
    hide SplitTarget, SplitScoped, Lower, ParseKind;
  }

  /** Adding a rule inserts just that rule, and finds it present exactly when the
      file already had a rule of its spelling. */
  lemma AddRuleMeaning(net: AddrSyntax, text: string, k: Kind, value: string, note: Option<string>)
    requires Lawful(net) && RuleOf(net, k, value).Some? && Terminated(text) && (note.Some? ==> '\n' !in note.value)
    requires SpellableRule(net, RuleOf(net, k, value).value)
    ensures var r, key := RuleOf(net, k, value).value, KindName(k);
            var m := Load(net, text);
            var text' := text + Line(key, Normalise(net, key, value), note) + "\n";
            && (Count(Lines(text), RuleHits(net, key, Normalise(net, key, value))) > 0 <==> Spelt(net, m.rules, r))
            && Load(net, text') == m.(rules := m.rules + {r})
            && Terminated(text')
  {
    HitsAreSpellings(net, text, k, value);
    AddedRuleLine(net, k, value, note);
    hide RuleOf, Normalise, KindName, Lines, Load, Count, Line, RuleLine, SpellableRule, Lawful, RuleHits, LowerRule, Spelt;
    AppendRule(net, text, RuleOf(net, k, value).value, ' ', note);
  }

  lemma AddedRuleLine(net: AddrSyntax, k: Kind, value: string, note: Option<string>)
    requires RuleOf(net, k, value).Some?
    ensures var r := RuleOf(net, k, value).value;
            && Line(KindName(k), Normalise(net, KindName(k), value), note) == RuleLine(net, r, ' ', note)
            && LowerRule(r) == r
  {
    ParseKindName(k);
    RuleHasItsKind(net, k, value);
    NormaliseIsSpelled(net, k, value);
    hide RuleOf, NormaliseKind, Spelled, KindName, Line, ParseKind, LowerRule;
  }

  /** Adding a rule that was not present and removing it again takes out exactly
      the line put in: the file's lines are back, and so is the file itself
      exactly when it had no carriage return before a newline. */
  lemma AddThenRemoveRestores(net: AddrSyntax, text: string, k: Kind, value: string, note: Option<string>)
    requires Lawful(net) && RuleOf(net, k, value).Some? && Terminated(text) && (note.Some? ==> '\n' !in note.value)
    requires SpellableRule(net, RuleOf(net, k, value).value) && !Spelt(net, Load(net, text).rules, RuleOf(net, k, value).value)
    ensures var key := KindName(k);
            var hit := RuleHits(net, key, Normalise(net, key, value));
            var text' := text + Line(key, Normalise(net, key, value), note) + "\n";
            && Count(Lines(text'), hit) == 1
            && Rewrite(text', hit) == Unlines(Lines(text))
            && (Rewrite(text', hit) == text <==> !HasCrLf(text))
  {
    var key := KindName(k);
    var hit := RuleHits(net, key, Normalise(net, key, value));
    var line := Line(key, Normalise(net, key, value), note);
    AddRuleMeaning(net, text, k, value, note);
    AddedIsSpelt(net, Load(net, text).rules, RuleOf(net, k, value).value);
    HitsAreSpellings(net, text + line + "\n", k, value);
    AddedLineHasNoNewline(net, k, value, note);
    UnlinesOfLines(text);
    hide RuleOf, Normalise, KindName, Lines, Load, Line, SpellableRule, Lawful, RuleHits, EffectOf, StripCr, Unlines, HasCrLf, Spelt;
    LinesOfAppend(text, line);
    KeepMembers(Lines(text), hit);
    CountedAtTheEnd(Lines(text), StripCr(line), hit);
  }

  lemma AddedIsSpelt(net: AddrSyntax, rules: set<Rule>, r: Rule)
    ensures Spelt(net, rules + {r}, r)
  {
    assert SameSpelling(net, r, r);
  }

  lemma CountedAtTheEnd(ls: seq<string>, l: string, hit: string -> bool)
    requires Count(ls, hit) == 0 && Count(ls + [l], hit) > 0
    ensures Count(ls + [l], hit) == 1 && Keep(ls + [l], hit) == ls
  {
    assert (ls + [l])[..|ls|] == ls;
    KeepMembers(ls, hit);
  }

  lemma AddedLineHasNoNewline(net: AddrSyntax, k: Kind, value: string, note: Option<string>)
    requires Lawful(net) && RuleOf(net, k, value).Some? && SpellableRule(net, RuleOf(net, k, value).value)
    requires note.Some? ==> '\n' !in note.value
    ensures '\n' !in Line(KindName(k), Normalise(net, KindName(k), value), note)
  {
    var r := RuleOf(net, k, value).value;
    NormaliseIsSpelled(net, k, value);
    ParseKindName(k);
    hide RuleOf, Spelled, NormaliseKind, KindName, Line, SpellableRule, Lawful, LowerRule;
    SpelledMeansRule(net, r, ' ');
    KindNameIsClean(k);
    LineHasNoNewline(KindName(k), Normalise(net, KindName(k), value), note);
  }
}
