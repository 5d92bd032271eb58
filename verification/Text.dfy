/** The string operations the policy file is read and written with: lines,
    comments, trimming, splitting on white space, ports in decimal. */
module Text {
  import opened Options

  /** Rust's char::is_whitespace. */
  predicate IsWs(c: char) {
    var n := c as int;
    9 <= n <= 13 || n == 32 || n == 0x85 || n == 0xA0 || n == 0x1680 || 0x2000 <= n <= 0x200A ||
    n == 0x2028 || n == 0x2029 || n == 0x202F || n == 0x205F || n == 0x3000
  }

  predicate NoWs(s: string) {
    forall i :: 0 <= i < |s| ==> !IsWs(s[i])
  }

  predicate AllWs(s: string) {
    forall i :: 0 <= i < |s| ==> IsWs(s[i])
  }

  /** No white space at either end. */
  predicate Trimmed(s: string) {
    s == "" || (!IsWs(s[0]) && !IsWs(s[|s| - 1]))
  }

  function TrimStart(s: string): (t: string)
    ensures t == "" || !IsWs(t[0])
    ensures |t| <= |s| && t == s[|s| - |t|..]
  {
    if s != "" && IsWs(s[0]) then TrimStart(s[1..]) else s
  }

  function TrimEnd(s: string): (t: string)
    ensures t == "" || !IsWs(t[|t| - 1])
    ensures |t| <= |s| && t == s[..|t|]
  {
    if s != "" && IsWs(s[|s| - 1]) then TrimEnd(s[..|s| - 1]) else s
  }

  function Trim(s: string): (t: string)
    ensures Trimmed(t)
    ensures Trimmed(s) ==> t == s
  {
    TrimEnd(TrimStart(s))
  }

  lemma {:induction false} TrimStartPadded(pad: string, s: string)
    requires AllWs(pad)
    ensures TrimStart(pad + s) == TrimStart(s)
  {
    if pad == "" {
      assert pad + s == s;
    } else {
      assert (pad + s)[1..] == pad[1..] + s;
      TrimStartPadded(pad[1..], s);
    }
  }

  lemma {:induction false} TrimEndPadded(s: string, pad: string)
    requires AllWs(pad)
    ensures TrimEnd(s + pad) == TrimEnd(s)
  {
    if pad == "" {
      assert s + pad == s;
    } else {
      assert (s + pad)[..|s + pad| - 1] == s + pad[..|pad| - 1];
      TrimEndPadded(s, pad[..|pad| - 1]);
    }
  }

  /** White space around a trimmed text is all that trimming takes away. */
  lemma TrimPadded(pre: string, s: string, post: string)
    requires AllWs(pre) && Trimmed(s) && AllWs(post)
    ensures Trim(pre + s + post) == s
  {
    assert pre + s + post == pre + (s + post);
    TrimStartPadded(pre, s + post);
    if s == "" {
      assert s + post == post + "";
      TrimStartPadded(post, "");
    } else {
      assert TrimStart(s + post) == s + post;
      TrimEndPadded(s, post);
    }
  }

  function IndexOf(s: string, c: char): (i: nat)
    ensures i <= |s| && c !in s[..i]
    ensures i < |s| ==> s[i] == c
    ensures i < |s| <==> c in s
  {
    if s == "" || s[0] == c then 0
    else
      var i := IndexOf(s[1..], c);
      assert s[..i + 1] == [s[0]] + s[1..][..i];
      1 + i
  }

  function LastIndexOf(s: string, c: char): (i: int)
    ensures -1 <= i < |s|
    ensures i >= 0 ==> s[i] == c && c !in s[i + 1..]
    ensures i >= 0 <==> c in s
  {
    if s == "" then -1
    else if s[|s| - 1] == c then |s| - 1
    else
      var i := LastIndexOf(s[..|s| - 1], c);
      assert s == s[..|s| - 1] + [s[|s| - 1]];
      assert i >= 0 ==> s[i + 1..] == s[..|s| - 1][i + 1..] + [s[|s| - 1]];
      i
  }

  lemma {:induction false} IndexOfAppend(a: string, c: char, b: string)
    requires c !in a
    ensures IndexOf(a + [c] + b, c) == |a|
  {
    if a != "" {
      assert a[0] in a && (a + [c] + b)[1..] == a[1..] + [c] + b;
      IndexOfAppend(a[1..], c, b);
    }
  }

  lemma {:induction false} LastIndexOfAppend(a: string, c: char, b: string)
    requires c !in b
    ensures LastIndexOf(a + [c] + b, c) == |a|
  {
    var s := a + [c] + b;
    if b != "" {
      var init := b[..|b| - 1];
      assert b[|b| - 1] in b && s[..|s| - 1] == a + [c] + init;
      LastIndexOfAppend(a, c, init);
    }
  }

  function FirstWs(s: string): (i: nat)
    ensures i <= |s| && NoWs(s[..i])
    ensures i < |s| ==> IsWs(s[i])
  {
    if s == "" || IsWs(s[0]) then 0 else 1 + FirstWs(s[1..])
  }

  lemma {:induction false} FirstWsAppend(a: string, c: char, b: string)
    requires NoWs(a) && IsWs(c)
    ensures FirstWs(a + [c] + b) == |a|
  {
    if a != "" {
      assert (a + [c] + b)[1..] == a[1..] + [c] + b;
      FirstWsAppend(a[1..], c, b);
    }
  }

  /** The text before the first '#'. */
  function BeforeHash(s: string): (t: string)
    ensures '#' !in t && |t| <= |s| && t == s[..|t|]
  {
    s[..IndexOf(s, '#')]
  }

  lemma BeforeHashAppend(a: string, b: string)
    requires '#' !in a
    ensures BeforeHash(a + "#" + b) == a
    ensures BeforeHash(a) == a
  {
    IndexOfAppend(a, '#', b);
    assert "#" == ['#'];
  }

  // ---- case ----

  function LowerChar(c: char): char {
    if 'A' <= c <= 'Z' then ((c as int) + 32) as char else c
  }

  function Lower(s: string): (t: string)
    ensures |t| == |s| && forall i :: 0 <= i < |s| ==> t[i] == LowerChar(s[i])
  {
    seq(|s|, i requires 0 <= i < |s| => LowerChar(s[i]))
  }

  lemma LowerIsIdempotent(s: string)
    ensures Lower(Lower(s)) == Lower(s)
  {
  }

  // ---- ports ----

  type Port = p: int | 0 <= p < 0x1_0000

  predicate IsDigit(c: char) {
    '0' <= c <= '9'
  }

  predicate Digits(s: string) {
    forall i :: 0 <= i < |s| ==> IsDigit(s[i])
  }

  function DigitsValue(s: string): nat
    requires Digits(s)
  {
    if s == "" then 0 else 10 * DigitsValue(s[..|s| - 1]) + (s[|s| - 1] as int - '0' as int)
  }

  /** u16::from_str: an optional plus sign, then decimal digits in range. */
  function ParseU16(s: string): (p: Option<Port>)
    ensures p.Some? ==> s != "" && forall c :: c in s ==> IsDigit(c) || c == '+'
  {
    var d := if s != "" && s[0] == '+' then s[1..] else s;
    if d == "" || !Digits(d) || DigitsValue(d) > 0xffff then None else Some(DigitsValue(d))
  }

  function PrintNat(n: nat): (s: string)
    ensures s != "" && Digits(s) && DigitsValue(s) == n
  {
    var last := [('0' as int + n % 10) as char];
    if n < 10 then last else
      var init := PrintNat(n / 10);
      assert (init + last)[..|init|] == init;
      init + last
  }

  lemma ParsePrintU16(p: Port)
    ensures ParseU16(PrintNat(p)) == Some(p)
    ensures forall c :: c in PrintNat(p) ==> IsDigit(c)
  {
    var s := PrintNat(p);
    assert IsDigit(s[0]);
  }

  // ---- lines ----

  function StripCr(l: string): string {
    if l != "" && l[|l| - 1] == '\r' then l[..|l| - 1] else l
  }

  /** Rust's str::lines: newline-terminated, a carriage return before the newline
      dropped, a last line without a newline kept as it is. */
  function Lines(text: string): (ls: seq<string>)
    ensures forall l :: l in ls ==> '\n' !in l
    decreases |text|
  {
    if text == "" then []
    else
      var i := IndexOf(text, '\n');
      if i == |text| then [text] else [StripCr(text[..i])] + Lines(text[i + 1..])
  }

  function Unlines(ls: seq<string>): string {
    if ls == [] then "" else ls[0] + "\n" + Unlines(ls[1..])
  }

  function StripAll(ls: seq<string>): (r: seq<string>)
    ensures |r| == |ls| && forall i :: 0 <= i < |ls| ==> r[i] == StripCr(ls[i])
  {
    seq(|ls|, i requires 0 <= i < |ls| => StripCr(ls[i]))
  }

  /** Empty, or ending in a newline. */
  predicate Terminated(text: string) {
    text == "" || text[|text| - 1] == '\n'
  }

  predicate EndsInCr(l: string) {
    l != "" && l[|l| - 1] == '\r'
  }

  /** A carriage return stands directly before a newline. */
  predicate HasCrLf(text: string) {
    exists i :: 0 < i < |text| && text[i - 1] == '\r' && text[i] == '\n'
  }

  lemma LinesOfFirst(l: string, rest: string)
    requires '\n' !in l
    ensures Lines(l + "\n" + rest) == [StripCr(l)] + Lines(rest)
  {
    assert "\n" == ['\n'];
    var t := l + ['\n'] + rest;
    IndexOfAppend(l, '\n', rest);
    assert t[..|l|] == l && t[|l| + 1..] == rest;
  }

  lemma {:induction false} LinesOfUnlines(ls: seq<string>)
    requires forall l :: l in ls ==> '\n' !in l
    ensures Lines(Unlines(ls)) == StripAll(ls)
  {
    hide Lines;
    if ls == [] {
      LinesOfNothing();
    } else {
      LinesOfFirst(ls[0], Unlines(ls[1..]));
      LinesOfUnlines(ls[1..]);
      assert StripAll(ls) == [StripCr(ls[0])] + StripAll(ls[1..]);
    }
  }

  lemma LinesOfNothing()
    ensures Lines("") == []
  {
  }

  lemma CutAt(text: string, i: nat)
    requires i < |text| && text[i] == '\n'
    ensures text == text[..i] + "\n" + text[i + 1..]
    ensures Terminated(text) ==> Terminated(text[i + 1..])
  {
  }

  lemma AppendInside(l: string, rest: string, line: string)
    ensures (l + "\n" + rest) + line + "\n" == l + "\n" + (rest + line + "\n")
  {
  }

  /** Appending a line to a terminated file adds just that line. */
  lemma {:induction false} LinesOfAppend(text: string, line: string)
    requires Terminated(text) && '\n' !in line
    ensures Lines(text + line + "\n") == Lines(text) + [StripCr(line)]
    decreases |text|
  {
    hide StripCr;
    if text == "" {
      LinesOfFirst(line, "");
      assert text + line + "\n" == line + "\n" + "";
    } else {
      assert text[|text| - 1] in text;
      var i := IndexOf(text, '\n');
      var l, rest := text[..i], text[i + 1..];
      hide *;
      CutAt(text, i);
      AppendInside(l, rest, line);
      LinesOfFirst(l, rest);
      LinesOfFirst(l, rest + line + "\n");
      LinesOfAppend(rest, line);
    }
  }

  // ---- directives ----

  datatype Directive = Directive(key: string, value: string)

  /** A directive: its first word, and the rest of the line. */
  function Split(body: string): (d: Directive)
    requires Trimmed(body) && body != ""
    ensures d.key != "" && NoWs(d.key) && Trimmed(d.value)
  {
    var i := FirstWs(body);
    Directive(body[..i], if i < |body| then Trim(body[i + 1..]) else "")
  }

  /** The directive on a line, comment and surrounding white space aside. */
  function Tokens(raw: string): (d: Option<Directive>)
    ensures d.Some? ==> d.value.key != "" && NoWs(d.value.key) && Trimmed(d.value.value)
  {
    var body := Trim(BeforeHash(raw));
    if body == "" then None else Some(Split(body))
  }

  /** Split off the first white-space-free word; None without a second part. */
  function SplitScoped(v: string): (r: Option<(string, string)>)
    ensures r.Some? ==> r.value.0 != "" && NoWs(r.value.0) && r.value.1 != "" && Trimmed(r.value.1)
  {
    var i := FirstWs(v);
    if i == |v| then None
    else
      var (dest, exe) := (v[..i], Trim(v[i + 1..]));
      if dest == "" || exe == "" then None else Some((dest, exe))
  }

  lemma SplitScopedJoined(dest: string, sep: char, exe: string)
    requires dest != "" && NoWs(dest) && IsWs(sep) && exe != "" && Trimmed(exe)
    ensures SplitScoped(dest + [sep] + exe) == Some((dest, exe))
  {
    FirstWsAppend(dest, sep, exe);
    var v := dest + [sep] + exe;
    assert v[..|dest|] == dest && v[|dest| + 1..] == exe;
  }

  /** A line as the tool writes it: a directive, then perhaps a tab and a comment. */
  function Line(key: string, value: string, comment: Option<string>): string {
    Commented(key + [' '] + value, comment)
  }

  function Commented(body: string, comment: Option<string>): string {
    if comment.None? then body else body + "\t" + "#" + comment.value
  }

  /** Reading such a line back, whatever blank text stands before it. */
  lemma TokensOfLine(pad: string, key: string, value: string, comment: Option<string>)
    requires AllWs(pad) && key != "" && NoWs(key) && '#' !in key
    requires value != "" && Trimmed(value) && '#' !in value
    ensures Tokens(pad + Line(key, value, comment)) == Some(Directive(key, value))
  {
    SplitJoined(key, value);
    hide Split, Tokens, Commented;
    TokensOfCommented(pad, key + [' '] + value, comment);
  }

  lemma TokensOfCommented(pad: string, body: string, comment: Option<string>)
    requires AllWs(pad) && Trimmed(body) && body != "" && '#' !in body
    ensures Tokens(pad + Commented(body, comment)) == Some(Split(body))
  {
    NoHashInWs(pad);
    hide Split, Tokens;
    if comment.None? {
      assert pad + body == pad + body + "";
      TokensOfBody(pad, body, "", pad + body, "");
    } else {
      PadLine(pad, body, comment.value);
      TokensOfBody(pad, body, "\t", pad + Commented(body, comment), comment.value);
    }
  }

  lemma NoHashInWs(pad: string)
    requires AllWs(pad)
    ensures '#' !in pad
  {
  }

  lemma PadLine(pad: string, body: string, comment: string)
    ensures pad + (body + "\t" + "#" + comment) == (pad + body + "\t") + "#" + comment
  {
    assert body + "\t" + "#" + comment == body + ("\t" + "#" + comment);
    assert (pad + body + "\t") + "#" + comment == pad + body + ("\t" + "#" + comment);
  }

  lemma SplitJoined(key: string, value: string)
    requires key != "" && NoWs(key) && value != "" && Trimmed(value)
    ensures var s := key + [' '] + value; Trimmed(s) && Split(s) == Directive(key, value)
  {
    var s := key + [' '] + value;
    FirstWsAppend(key, ' ', value);
    assert s[..|key|] == key && s[|key| + 1..] == value;
  }

  lemma TokensOfBody(pad: string, body: string, post: string, raw: string, comment: string)
    requires AllWs(pad) && AllWs(post) && Trimmed(body) && body != ""
    requires '#' !in pad && '#' !in body && '#' !in post
    requires raw == pad + body + post || raw == (pad + body + post) + "#" + comment
    ensures Tokens(raw) == Some(Split(body))
  {
    hide Split, Trim, BeforeHash;
    BeforeHashAppend(pad + body + post, comment);
    TrimPadded(pad, body, post);
  }

  lemma TokensIgnoreCr(l: string)
    ensures Tokens(StripCr(l)) == Tokens(l)
  {
    hide Split, Trim, BeforeHash;
    if l != "" && l[|l| - 1] == '\r' {
      var s := StripCr(l);
      assert l == s + ['\r'];
      if '#' in s {
        var i := IndexOf(s, '#');
        assert s == s[..i] + "#" + s[i + 1..];
        assert l == s[..i] + "#" + (s[i + 1..] + ['\r']);
        BeforeHashAppend(s[..i], s[i + 1..]);
        BeforeHashAppend(s[..i], s[i + 1..] + ['\r']);
      } else {
        BeforeHashAppend(s, "");
        BeforeHashAppend(l, "");
        TrimKeepsCr(s);
      }
    }
  }

  lemma TrimKeepsCr(s: string)
    ensures Trim(s + ['\r']) == Trim(s)
  {
    TrimStartKeepsCr(s);
    var t := TrimStart(s);
    if t != "" { TrimEndPadded(t, ['\r']); }
  }

  lemma {:induction false} TrimStartKeepsCr(s: string)
    ensures TrimStart(s + ['\r']) == if TrimStart(s) == "" then "" else TrimStart(s) + ['\r']
  {
    assert IsWs('\r');
    hide IsWs;
    var r := s + ['\r'];
    if s == "" {
      assert r == ['\r'] && r[1..] == "";
    } else {
      assert r[0] == s[0] && r[1..] == s[1..] + ['\r'];
      if IsWs(s[0]) { TrimStartKeepsCr(s[1..]); }
    }
  }
}
