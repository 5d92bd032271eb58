/** The policy in memory: loaded line by line, and updated in place as answers
    are recorded. Source: src/policy.rs, lines 82-200, 323-460 and 1330-1343. */
module PolicyStore {
  import opened Options
  import opened Text
  import opened Targets
  import opened Policy

  class Store {
    var dflt: Verdict
    var rules: set<Rule>
    var prompt: Option<string>
    var appId: map<string, string>
    var mode: Option<Mode>
    var attribution: Option<AttributionMode>

    function View(): Meaning
      reads this
    {
      Meaning(dflt, rules, prompt, appId, mode, attribution)
    }

    /** An absent file is a policy that asks about everything. */
    constructor (net: AddrSyntax, file: Option<string>)
      ensures View() == if file.Some? then Load(net, file.value) else NOTHING
    {
      dflt, rules, prompt, appId, mode, attribution := Ask, {}, None, map[], None, None;
      new;
      if file.Some? {
        var ls := Lines(file.value);
        hide Lines, Apply, EffectOf;
        assert ls[..0] == [];
        for i := 0 to |ls|
          invariant View() == LoadLines(net, ls[..i])
        {
          assert ls[..i + 1][..i] == ls[..i];
          ApplyLine(net, ls[i]);
        }
        assert ls[..|ls|] == ls;
      }
    }

    method ApplyLine(net: AddrSyntax, raw: string)
      modifies this
      ensures View() == Apply(old(View()), EffectOf(net, raw))
    {
      hide Tokens, ParseKind, SettingOf, RuleOf;
      var d := Tokens(raw);
      if d.Some? {
        var k := ParseKind(d.value.key);
        if k.Some? {
          var r := RuleOf(net, k.value, d.value.value);
          if r.Some? { rules := rules + {r.value}; }
        } else {
          ApplySetting(SettingOf(d.value.key, d.value.value));
        }
      }
    }

    method ApplySetting(e: Effect)
      modifies this
      ensures View() == Apply(old(View()), e)
    {
      match e {
        case Nop =>
        case SetDefault(v) => dflt := v;
        case Insert(r) => rules := rules + {r};
        case SetPrompt(p) => prompt := Some(p);
        case PinId(exe, sha) => appId := appId[exe := sha];
        case SetMode(m) => mode := Some(m);
        case SetAttribution(a) => attribution := Some(a);
      }
    }

    /** Persist an answer: the rule goes into memory and to the end of the file. */
    method Record(net: AddrSyntax, text: string, ans: Answer, q: Query, note: string) returns (text': string)
      modifies this
      ensures (View(), text') == Policy.Record(net, old(View()), text, ans, q, note)
    {
      var port := Some(q.dport);
      var r: Rule;
      var value: string;
      match ans {
        case Timeout => return text;
        case AllowApp =>
          if q.exe.None? { return text; }
          r, value := App(true, q.exe.value), q.exe.value;
        case BlockApp =>
          if q.exe.None? { return text; }
          r, value := App(false, q.exe.value), q.exe.value;
        case _ =>
          var allow := ans.AllowConn?;
          var target := JoinTarget(net, if Named(q.host) then q.host.value else net.show(q.dst), port);
          if q.exe.Some? {
            value := target + ['\t'] + q.exe.value;
            r := if Named(q.host) then HostFrom(allow, q.exe.value, Lower(q.host.value), port)
                 else DestFrom(allow, q.exe.value, q.dst, port);
          } else {
            value := target;
            r := if Named(q.host) then Host(allow, Lower(q.host.value), port) else Dest(allow, q.dst, port);
          }
      }
      rules := rules + {r};
      text' := text + Line(KindName(r.KindOf()), value, if ans.AllowApp? then None else Some(note)) + "\n";
    }

    method RecordId(text: string, exe: string, sha: string) returns (text': string)
      modifies this
      ensures (View(), text') == Policy.RecordId(old(View()), text, exe, sha)
    {
      if exe in appId { return text; }
      appId := appId[exe := Lower(sha)];
      text' := text + Line("app-id", sha + ['\t'] + exe, Some(" identity when approved")) + "\n";
    }

    method ForgetId(exe: string)
      modifies this
      ensures View() == Policy.ForgetId(old(View()), exe)
    {
      appId := appId - {exe};
    }
  }
}
