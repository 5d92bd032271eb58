/** What adding a rule does to a policy file whose last line lacks its newline.
    Source: src/policy.rs, lines 583-634. */
module UnterminatedAdd {
  import opened Options
  import opened Text
  import opened Targets
  import opened Policy
  import opened PolicyRecord
  import opened PolicyFile
  import opened UnterminatedFile

  /** Every rule but one about a host, or about an address without a port: text
      that ends in such a target may be read as the target in other ways. */
  predicate Distinctive(r: Rule) {
    (r.Host? ==> NoWs(r.host)) && (r.Host? || r.Dest? ==> r.port.Some?)
  }

  function AddedLine(net: AddrSyntax, k: Kind, value: string, note: Option<string>): string {
    Line(KindName(k), Normalise(net, KindName(k), value), note)
  }

  /** The glued line happens to mean the new rule, and the last line said nothing
      that was not said before it. */
  predicate GlueReadsBack(net: AddrSyntax, pre: string, last: string, line: string, r: Rule) {
    EffectOf(net, last + line) == Insert(r) && SaidAlready(Load(net, pre), EffectOf(net, last))
  }

  /** A rule the file does not have is added, and nothing lost, if and only if the
      last line is blank; or, for a rule that is not distinctive, the glued line
      reads back as the rule and the last line was said before. */
  lemma AddIntoUnterminatedFile(net: AddrSyntax, text: string, pre: string, last: string, k: Kind, value: string, note: Option<string>)
    requires Lawful(net) && RuleOf(net, k, value).Some? && (note.Some? ==> '\n' !in note.value) && EndsInside(text, pre, last)
    requires SpellableRule(net, RuleOf(net, k, value).value) && RuleOf(net, k, value).value !in Load(net, text).rules
    ensures var r, m, line := RuleOf(net, k, value).value, Load(net, text), AddedLine(net, k, value, note);
            Load(net, text + line + "\n") == m.(rules := m.rules + {r})
            <==> AllWs(last) || (!Distinctive(r) && GlueReadsBack(net, pre, last, line, r))
  {
    var r := RuleOf(net, k, value).value;
    var line := AddedLine(net, k, value, note);
    AddedRuleLine(net, k, value, note);
    hide *;
    RuleLineIsOneLine(net, r, ' ', note);
    AddedEffect(net, last, r, note);
    GluedWhole(net, text, pre, last, line);
    NewRule(Load(net, pre), EffectOf(net, last), EffectOf(net, last + line), r);
    ReadsBack(net, pre, last, line, r);
  }

  lemma ReadsBack(net: AddrSyntax, pre: string, last: string, line: string, r: Rule)
    requires r !in Apply(Load(net, pre), EffectOf(net, last)).rules
    ensures GlueReadsBack(net, pre, last, line, r) <==>
              && EffectOf(net, last + line) == Insert(r)
              && Apply(Load(net, pre), Insert(r)) == Apply(Apply(Load(net, pre), EffectOf(net, last)), Insert(r))
  {
    hide Load, EffectOf;
    LostUnlessSaid(Load(net, pre), EffectOf(net, last), r);
  }

  lemma LostUnlessSaid(m: Meaning, e: Effect, r: Rule)
    requires r !in Apply(m, e).rules
    ensures Apply(m, Insert(r)) == Apply(Apply(m, e), Insert(r)) <==> SaidAlready(m, e)
  {
    if e.Insert? && m.rules + {r} == m.rules + {e.r} + {r} {
      assert e.r in m.rules + {r};
      assert e.r in m.rules;
      assert m.rules + {e.r} == m.rules;
    }
  }

  lemma GluedWhole(net: AddrSyntax, text: string, pre: string, last: string, line: string)
    requires EndsInside(text, pre, last) && '\n' !in line
    ensures Load(net, text) == Apply(Load(net, pre), EffectOf(net, last))
    ensures Load(net, text + line + "\n") == Apply(Load(net, pre), EffectOf(net, last + line))
  {
    hide Load, EffectOf, Apply;
    GluedFile(net, pre, last, line);
  }

  lemma AddedEffect(net: AddrSyntax, last: string, r: Rule, note: Option<string>)
    requires Lawful(net) && SpellableRule(net, r) && LowerRule(r) == r
    ensures var e, e' := EffectOf(net, last), EffectOf(net, last + RuleLine(net, r, ' ', note));
            && (AllWs(last) ==> e == Nop && e' == Insert(r))
            && (!AllWs(last) && e' == Insert(r) ==> e == Insert(r) || !Distinctive(r))
  {
    hide EffectOf, RuleLine, SpellableRule, AllWs, Lawful, LowerRule;
    WsHasNoHash(last);
    if AllWs(last) {
      RuleLineMeans(net, last, r, ' ', note);
      BlankLineIsNop(net, last);
    } else if '#' in last {
      CommentSwallows(net, last, RuleLine(net, r, ' ', note));
    } else if Distinctive(r) {
      GluedLineIsNotTheRule(net, last, r, ' ', note);
    }
  }

  lemma NewRule(m: Meaning, e: Effect, e': Effect, r: Rule)
    requires r !in Apply(m, e).rules
    ensures var m1 := Apply(m, e);
            && m1.(rules := m1.rules + {r}) == Apply(m1, Insert(r))
            && (e == Nop && e' == Insert(r) ==> Apply(m, e') == Apply(m1, Insert(r)))
            && (Apply(m, e') == Apply(m1, Insert(r)) ==> e' == Insert(r))
            && e != Insert(r)
  {
    assert r in Apply(m, e).rules + {r};
  }
}
