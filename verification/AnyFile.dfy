/** What recording does to a policy file whatever its ending, from whatever policy
    is in memory. Source: src/main.rs, lines 508-521; src/policy.rs, lines 323-460
    and 1330-1343. */
module AnyFile {
  import opened Options
  import opened Text
  import opened Targets
  import opened Policy
  import opened PolicyRecord
  import opened UnterminatedFile
  import opened UnterminatedPins

  // ---- the last line ----

  /** What stands behind the last newline. */
  function LastLine(text: string): (last: string)
    ensures |last| <= |text|
  {
    if Terminated(text) then "" else LastLine(text[..|text| - 1]) + [text[|text| - 1]]
  }

  /** What is terminated. */
  function Body(text: string): string {
    text[..|text| - |LastLine(text)|]
  }

  lemma {:induction false} EndOf(text: string)
    ensures text == Body(text) + LastLine(text) && Terminated(Body(text)) && '\n' !in LastLine(text)
    decreases |text|
  {
    if !Terminated(text) {
      EndOf(text[..|text| - 1]);
      OneMoreChar(text);
      Reassociate(Body(text), LastLine(text[..|text| - 1]), [text[|text| - 1]]);
      hide Body, LastLine;
    }
  }

  lemma OneMoreChar(text: string)
    requires !Terminated(text)
    ensures var t, c := text[..|text| - 1], text[|text| - 1];
            text == t + [c] && LastLine(text) == LastLine(t) + [c] && c != '\n' && Body(text) == Body(t)
  {
  }

  lemma EndsInsideOf(text: string)
    requires !Terminated(text)
    ensures EndsInside(text, Body(text), LastLine(text))
  {
    EndOf(text);
    hide LastLine;
    assert LastLine(text) == "" ==> Body(text) == text;
  }

  lemma NothingLast(text: string)
    requires Terminated(text)
    ensures LastLine(text) == "" && Body(text) == text && AllWs(LastLine(text))
  {
  }

  lemma Empties(text: string, line: string)
    ensures text + "" == text && "" + line == line
  {
  }

  /** The meanings before and after a line is appended. */
  lemma AppendAny(net: AddrSyntax, text: string, line: string)
    requires '\n' !in line
    ensures var m, last := Load(net, Body(text)), LastLine(text);
            && Load(net, text) == Apply(m, EffectOf(net, last))
            && Load(net, text + line + "\n") == Apply(m, EffectOf(net, last + line))
  {
    EndOf(text);
    hide *;
    if LastLine(text) == "" {
      Empties(Body(text), line);
      BlankIsNop(net, Load(net, text));
      AppendLine(net, text, line);
    } else {
      GluedFile(net, Body(text), LastLine(text), line);
    }
  }

  lemma BlankIsNop(net: AddrSyntax, m: Meaning)
    ensures Apply(m, EffectOf(net, "")) == m
  {
    BlankLineIsNop(net, "");
    hide EffectOf;
  }

  // ---- one record ----

  /** Nothing but the rule tells the two apart. */
  predicate AlikeBut(m: Meaning, m2: Meaning, r: Rule) {
    m.(rules := m.rules - {r}) == m2.(rules := m2.rules - {r})
  }

  function RecordedLine(net: AddrSyntax, ans: Answer, q: Query, note: string): string
    requires RecordedRule(ans, q).Some?
  {
    RuleLine(net, RawRule(ans, q).value, '\t', if ans.AllowApp? then None else Some(note))
  }

  /** When a record brings memory and a file together. A line of its own reaches
      the file, so nothing else may tell them apart; one lost in a comment must be
      there already; one glued to text must be there before that text, and memory
      must be what the glued line makes of the file. */
  predicate TakesUp(net: AddrSyntax, m: Meaning, text: string, ans: Answer, q: Query, note: string)
    requires RecordedRule(ans, q).Some?
  {
    var r, pre, last := RecordedRule(ans, q).value, Body(text), LastLine(text);
    if AllWs(last) then AlikeBut(m, Load(net, text), r)
    else if '#' in last then r in Load(net, text).rules && AlikeBut(m, Load(net, text), r)
    else
      r in Load(net, pre).rules && AlikeBut(m, Apply(Load(net, pre), EffectOf(net, last + RecordedLine(net, ans, q, note))), r)
  }

  lemma TakenUp(m: Meaning, m2: Meaning, r: Rule)
    ensures Apply(m, Insert(r)) == m2 <==> r in m2.rules && AlikeBut(m, m2, r)
    ensures Apply(m, Insert(r)) == Apply(m2, Insert(r)) <==> AlikeBut(m, m2, r)
  {
    assert m.rules + {r} - {r} == m.rules - {r} && m2.rules + {r} - {r} == m2.rules - {r};
    assert m.rules - {r} + {r} == m.rules + {r} && m2.rules - {r} + {r} == m2.rules + {r};
    if r in m2.rules {
      assert m2.rules + {r} == m2.rules;
    }
  }

  lemma OnlyInserts(m: Meaning, e: Effect, r: Rule)
    requires e != Insert(r)
    ensures r in Apply(m, e).rules <==> r in m.rules
  {
  }

  lemma RecordedLineMeans(net: AddrSyntax, ans: Answer, q: Query, note: string, last: string)
    requires Lawful(net) && CleanQuery(q) && '\n' !in note && RecordedRule(ans, q).Some?
    ensures var e, e', r := EffectOf(net, last), EffectOf(net, last + RecordedLine(net, ans, q, note)), RecordedRule(ans, q).value;
            && (AllWs(last) ==> e == Nop && e' == Insert(r))
            && ('#' in last ==> e' == e)
            && (!AllWs(last) && '#' !in last ==> e' != Insert(r))
    ensures '\n' !in RecordedLine(net, ans, q, note)
  {
    var comment := if ans.AllowApp? then None else Some(note);
    RecordedLineIsRuleLine(net, ans, q);
    hide EffectOf, RuleLine, SpellableRule, RecordedRule, RawRule, LowerRule, AllWs, Lawful, CleanQuery;
    RuleLineIsOneLine(net, RawRule(ans, q).value, '\t', comment);
    GluedEffect(net, last, ans, q, comment);
  }

  lemma RecordAppends(net: AddrSyntax, m: Meaning, text: string, ans: Answer, q: Query, note: string)
    requires Lawful(net) && CleanQuery(q) && RecordedRule(ans, q).Some?
    ensures Record(net, m, text, ans, q, note)
            == (Apply(m, Insert(RecordedRule(ans, q).value)), text + RecordedLine(net, ans, q, note) + "\n")
  {
    RecordIsAppend(net, m, text, ans, q, note);
    RecordedLineIsRuleLine(net, ans, q);
    hide Record, RuleLine, SpellableRule, RecordedRule, RawRule, LowerRule, Lawful, CleanQuery;
  }

  /** Whatever the policy in memory and however the file ends, after a record they
      agree if and only if the record brings them together. */
  lemma RecordIntoAnyFile(net: AddrSyntax, m: Meaning, text: string, ans: Answer, q: Query, note: string)
    requires Lawful(net) && CleanQuery(q) && '\n' !in note && RecordedRule(ans, q).Some?
    ensures var (m', text') := Record(net, m, text, ans, q, note);
            m' == Load(net, text') <==> TakesUp(net, m, text, ans, q, note)
  {
    var r, pre, last, line := RecordedRule(ans, q).value, Load(net, Body(text)), LastLine(text), RecordedLine(net, ans, q, note);
    RecordAppends(net, m, text, ans, q, note);
    RecordedLineMeans(net, ans, q, note, last);
    hide Load, EffectOf, Record, RecordedLine, RecordedRule, LastLine, Body, AllWs, Lawful, CleanQuery, AlikeBut;
    AppendAny(net, text, line);
    TakenUp(m, Load(net, text), r);
    TakenUp(m, Apply(pre, EffectOf(net, last + line)), r);
    WsHasNoHash(last);
    if !AllWs(last) && '#' !in last {
      OnlyInserts(pre, EffectOf(net, last + line), r);
    }
  }

  /** In a file that ends in a newline the record's own line is never in doubt:
      only what memory had not seen of the file can keep them apart. */
  lemma TakesUpTerminated(net: AddrSyntax, m: Meaning, text: string, ans: Answer, q: Query, note: string)
    requires Terminated(text) && RecordedRule(ans, q).Some?
    ensures TakesUp(net, m, text, ans, q, note) <==> AlikeBut(m, Load(net, text), RecordedRule(ans, q).value)
  {
    NothingLast(text);
    hide Load, RecordedRule, AlikeBut, LastLine;
  }

  // ---- a whole answer ----

  predicate Approves(q: Query, ans: Answer) {
    q.exe.Some? && Allows(ans)
  }

  /** When an answer keeps memory and file in agreement: an approval whose pin gets
      through; one without a hash, of an unpinned binary, or of one that only the
      last line pins when nothing else is lost with it; otherwise the record alone. */
  predicate AnswerKeeps(net: AddrSyntax, text: string, ans: Answer, q: Query, sha: Option<string>, note: string) {
    var pre, last := Body(text), LastLine(text);
    if RecordedRule(ans, q).None? then true
    else if Approves(q, ans) && sha.Some? then
      PinGetsThrough(net, pre, last, q.exe.value, sha.value, Insert(RecordedRule(ans, q).value))
    else if Approves(q, ans) && q.exe.value in Load(net, text).appId then
      && q.exe.value !in Load(net, pre).appId && RecordedRule(ans, q).value in Load(net, pre).rules
      && SaidAlready(Load(net, pre), EffectOf(net, last + RecordedLine(net, ans, q, note)))
    else TakesUp(net, Load(net, text), text, ans, q, note)
  }

  function WholeAnswer(net: AddrSyntax, m: Meaning, text: string, ans: Answer, q: Query, sha: Option<string>, note: string): (Meaning, string) {
    var (m1, text1) := Repin(m, text, q.exe, ans, sha);
    Record(net, m1, text1, ans, q, note)
  }

  lemma HashedApproval(net: AddrSyntax, text: string, ans: Answer, q: Query, sha: string, note: string)
    requires Lawful(net) && CleanQuery(q) && '\n' !in note && Approves(q, ans) && CleanPin(q.exe.value, sha)
    ensures var (m', text') := WholeAnswer(net, Load(net, text), text, ans, q, Some(sha), note);
            m' == Load(net, text')
            <==> PinGetsThrough(net, Body(text), LastLine(text), q.exe.value, sha, Insert(RecordedRule(ans, q).value))
  {
    if Terminated(text) {
      NothingLast(text);
      RepinAgrees(net, text, q.exe.value, sha);
      var (m1, text1) := RecordId(ForgetId(Load(net, text), q.exe.value), text, q.exe.value, sha);
      assert Repin(Load(net, text), text, q.exe, ans, Some(sha)) == (m1, text1);
      hide *;
      RecordAgrees(net, text1, ans, q, note);
      HashedInto(net, text, ans, q, sha, note, m1, text1);
      GetsThroughBlank(net, text, LastLine(text), q.exe.value, sha, Insert(RecordedRule(ans, q).value));
    } else {
      EndsInsideOf(text);
      ApprovalIntoUnterminatedFile(net, text, Body(text), LastLine(text), ans, q, sha, note);
      hide Load, Record, Repin, RecordedRule, CleanQuery, CleanPin, Lawful, EndsInside, PinGetsThrough, LastLine, Body;
    }
  }

  lemma HashedInto(net: AddrSyntax, text: string, ans: Answer, q: Query, sha: string, note: string, m1: Meaning, text1: string)
    requires Repin(Load(net, text), text, q.exe, ans, Some(sha)) == (m1, text1)
    ensures WholeAnswer(net, Load(net, text), text, ans, q, Some(sha), note) == Record(net, m1, text1, ans, q, note)
  {
    hide Load, Repin, Record;
  }

  lemma GetsThroughBlank(net: AddrSyntax, pre: string, last: string, exe: string, sha: string, next: Effect)
    requires AllWs(last)
    ensures PinGetsThrough(net, pre, last, exe, sha, next)
  {
    hide Load, EffectOf, AllWs, PinnedTo, GlueIsHarmless;
  }

  lemma HashlessApproval(net: AddrSyntax, text: string, ans: Answer, q: Query, note: string)
    requires Lawful(net) && CleanQuery(q) && '\n' !in note && Approves(q, ans) && q.exe.value in Load(net, text).appId
    ensures var (m', text') := WholeAnswer(net, Load(net, text), text, ans, q, None, note);
            m' == Load(net, text') <==> AnswerKeeps(net, text, ans, q, None, note)
  {
    var exe, m := q.exe.value, Load(net, text);
    assert RecordedRule(ans, q).Some?;
    if Terminated(text) {
      NothingLast(text);
      ForgetIdAlone(m, exe);
      hide Load, Record, RecordedRule, RecordedLine, CleanQuery, Lawful, LastLine, SaidAlready, TakesUp, EffectOf, RawRule;
      RecordBehind(net, ForgetId(m, exe), text, ans, q, note);
      InsertKeepsPins(ForgetId(m, exe), m, RecordedRule(ans, q).value, exe);
    } else {
      EndsInsideOf(text);
      HashlessIntoUnterminatedFile(net, text, Body(text), LastLine(text), ans, q, note);
      hide Load, Record, Repin, RecordedRule, CleanQuery, Lawful, EndsInside, LastLine, Body, SaidAlready, TakesUp, EffectOf, RuleLine, RawRule;
    }
  }

  lemma InsertKeepsPins(m: Meaning, m2: Meaning, r: Rule, exe: string)
    requires exe !in m.appId && exe in m2.appId
    ensures Apply(m, Insert(r)) != Apply(m2, Insert(r))
  {
  }

  /** Whatever the file and its ending, an answer keeps it in agreement with the
      policy in memory if and only if `AnswerKeeps` says so. */
  lemma AnswerIntoAnyFile(net: AddrSyntax, text: string, ans: Answer, q: Query, sha: Option<string>, note: string)
    requires Lawful(net) && CleanQuery(q) && '\n' !in note
    requires Approves(q, ans) && sha.Some? ==> CleanPin(q.exe.value, sha.value)
    ensures var (m', text') := WholeAnswer(net, Load(net, text), text, ans, q, sha, note);
            m' == Load(net, text') <==> AnswerKeeps(net, text, ans, q, sha, note)
  {
    NothingRecorded(net, Load(net, text), text, ans, q, sha, note);
    NothingPinned(Load(net, text), text, q.exe, ans, sha);
    ApprovalRecords(q, ans);
    hide Load, Record, Repin, RecordedRule, CleanQuery, CleanPin, Lawful, LastLine, Body, SaidAlready, TakesUp, PinGetsThrough, EffectOf, RecordedLine;
    if RecordedRule(ans, q).Some? {
      if Approves(q, ans) && sha.Some? {
        HashedApproval(net, text, ans, q, sha.value, note);
      } else if Approves(q, ans) && q.exe.value in Load(net, text).appId {
        HashlessApproval(net, text, ans, q, note);
      } else {
        RecordIntoAnyFile(net, Load(net, text), text, ans, q, note);
      }
    }
  }

  lemma ApprovalRecords(q: Query, ans: Answer)
    ensures Approves(q, ans) ==> RecordedRule(ans, q).Some?
  {
  }

  lemma NothingRecorded(net: AddrSyntax, m: Meaning, text: string, ans: Answer, q: Query, sha: Option<string>, note: string)
    ensures RecordedRule(ans, q).None? ==> WholeAnswer(net, m, text, ans, q, sha, note) == (m, text)
  {
    hide Line;
  }

  lemma NothingPinned(m: Meaning, text: string, exe: Option<string>, ans: Answer, sha: Option<string>)
    ensures !(exe.Some? && Allows(ans)) || (sha.None? && exe.value !in m.appId) ==> Repin(m, text, exe, ans, sha) == (m, text)
  {
    hide RecordId;
    if exe.Some? && exe.value !in m.appId {
      assert m.appId - {exe.value} == m.appId;
    }
  }

  /** An answer that leaves the file as it was leaves memory as it was. */
  lemma SilentAnswer(net: AddrSyntax, m: Meaning, text: string, ans: Answer, q: Query, sha: Option<string>, note: string)
    ensures var (m1, text1) := Repin(m, text, q.exe, ans, sha);
            var (m2, text2) := Record(net, m1, text1, ans, q, note);
            text1 == text && text2 == text1 ==> m2 == m
  {
    NothingRecorded(net, m, text, ans, q, sha, note);
    var text1 := Repin(m, text, q.exe, ans, sha).1;
    if RecordedRule(ans, q).Some? {
      RecordLengthens(net, m, text1, ans, q, note);
      RecordLengthens(net, Repin(m, text, q.exe, ans, sha).0, text1, ans, q, note);
    }
    hide Record, Repin, RecordedRule;
  }

  lemma RecordLengthens(net: AddrSyntax, m: Meaning, text: string, ans: Answer, q: Query, note: string)
    requires RecordedRule(ans, q).Some?
    ensures |Record(net, m, text, ans, q, note).1| > |text|
  {
    hide Line, RecordedValue, RecordedRule;
  }
}
