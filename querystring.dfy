/**
 * Query strings as the two sides exchange them: the front end renders
 * `?name=value&name=value` with template literals, and the back end reads
 * the arguments back by name (`request.args.get`) and converts numbers with
 * Python's `int`.
 *
 * Only plain text (letters, digits and `-`) is covered: it is all the
 * application ever sends, and percent-decoding leaves it unchanged.
 */
module QueryString {
  import opened Wrappers

  /** One `name=value` argument of a query string. */
  datatype Param = Param(name: string, value: string)

  predicate IsDigit(c: char) {
    '0' <= c <= '9'
  }

  predicate IsPlainChar(c: char) {
    ('a' <= c <= 'z') || ('A' <= c <= 'Z') || IsDigit(c) || c == '-'
  }

  predicate IsPlain(s: string) {
    forall i :: 0 <= i < |s| ==> IsPlainChar(s[i])
  }

  predicate AllDigits(s: string) {
    forall i :: 0 <= i < |s| ==> IsDigit(s[i])
  }

  // ---------------------------------------------------------------------
  // Numbers and booleans as text

  function DigitChar(d: nat): (c: char)
    requires d < 10
    ensures IsDigit(c) && c as int - '0' as int == d
  {
    ('0' as int + d) as char
  }

  /** Decimal digits of a natural number, most significant first. */
  function NatToString(n: nat): string
  {
    if n < 10 then [DigitChar(n)] else NatToString(n / 10) + [DigitChar(n % 10)]
  }

  /** `${n}` for an integer number `n`: a minus sign, then the digits. */
  function IntToString(n: int): string
  {
    if n < 0 then "-" + NatToString(-n) else NatToString(n)
  }

  /** `${b}` for a boolean `b`. */
  function BoolToString(b: bool): (r: string)
    ensures IsPlain(r)
  {
    if b then "true" else "false"
  }

  /** The number a string of decimal digits denotes. */
  function DigitsValue(s: string): nat
    requires AllDigits(s)
  {
    if s == [] then 0 else DigitsValue(s[..|s| - 1]) * 10 + (s[|s| - 1] as int - '0' as int)
  }

  /**
   * Python's `int(s)` on an optional minus sign followed by decimal digits;
   * `None` for any other text.
   */
  function ParseInt(s: string): Option<int>
  {
    if |s| > 1 && s[0] == '-' && AllDigits(s[1..]) then Some(-(DigitsValue(s[1..]) as int))
    else if |s| > 0 && AllDigits(s) then Some(DigitsValue(s))
    else None
  }

  lemma {:induction false} NatToStringDigits(n: nat)
    ensures |NatToString(n)| > 0 && AllDigits(NatToString(n))
    ensures DigitsValue(NatToString(n)) == n
  {
    if n >= 10 {
      NatToStringDigits(n / 10);
      var s := NatToString(n);
      assert s[..|s| - 1] == NatToString(n / 10);
    }
  }

  /** Reading back the text `${n}` with `int` gives `n` again. */
  lemma ParseIntToString(n: int)
    ensures ParseInt(IntToString(n)) == Some(n)
    ensures IsPlain(IntToString(n))
  {
    var s := IntToString(n);
    if n < 0 {
      NatToStringDigits(-n);
      assert s[1..] == NatToString(-n);
    } else {
      NatToStringDigits(n);
    }
  }

  // ---------------------------------------------------------------------
  // Splitting and joining

  /** Position of the first `c` in `s`. */
  function IndexOf(s: string, c: char): (i: nat)
    requires c in s
    ensures i < |s| && s[i] == c && c !in s[..i]
  {
    if s[0] == c then 0
    else
      var i := 1 + IndexOf(s[1..], c);
      assert s[..i] == [s[0]] + s[1..][..i - 1];
      i
  }

  function Join(parts: seq<string>, sep: char): string
  {
    if parts == [] then ""
    else if |parts| == 1 then parts[0]
    else parts[0] + [sep] + Join(parts[1..], sep)
  }

  /** The pieces between occurrences of `sep`. */
  function Split(s: string, sep: char): seq<string>
    decreases |s|
  {
    if sep in s then
      var i := IndexOf(s, sep);
      [s[..i]] + Split(s[i + 1..], sep)
    else [s]
  }

  /** Where `sep` first occurs, when it does not occur in `a`. */
  lemma IndexAfter(a: string, sep: char, b: string)
    requires sep !in a
    ensures sep in a + [sep] + b && IndexOf(a + [sep] + b, sep) == |a|
  {
    var s := a + [sep] + b;
    assert s[..|a|] == a;
    assert s[|a|] == sep;
    var i := IndexOf(s, sep);
    assert i <= |a| ==> s[..i] == a[..i];
  }

  /** Splitting undoes joining when no piece contains the separator. */
  lemma {:induction false} SplitJoin(parts: seq<string>, sep: char)
    requires |parts| > 0
    requires forall i :: 0 <= i < |parts| ==> sep !in parts[i]
    ensures Split(Join(parts, sep), sep) == parts
  {
    if |parts| > 1 {
      var rest := Join(parts[1..], sep);
      IndexAfter(parts[0], sep, rest);
      var s := parts[0] + [sep] + rest;
      assert s[..|parts[0]|] == parts[0];
      assert s[|parts[0]| + 1..] == rest;
      SplitJoin(parts[1..], sep);
      assert parts == [parts[0]] + parts[1..];
    }
  }

  // ---------------------------------------------------------------------
  // Query strings

  function Encode(p: Param): string {
    p.name + "=" + p.value
  }

  /** `?n1=v1&n2=v2...`, or the empty string for no arguments. */
  function Render(ps: seq<Param>): string
  {
    if ps == [] then ""
    else "?" + Join(Pieces(ps), '&')
  }

  /** One `name=value` piece, split at its first `=`. */
  function Decode(s: string): Param
  {
    if '=' in s then
      var i := IndexOf(s, '=');
      Param(s[..i], s[i + 1..])
    else Param(s, "")
  }

  /** The arguments of a query string, in order. */
  function Parse(q: string): seq<Param>
  {
    var body := if |q| > 0 && q[0] == '?' then q[1..] else q;
    if body == "" then []
    else
      DecodeAll(Split(body, '&'))
  }

  function DecodeAll(pieces: seq<string>): seq<Param>
  {
    seq(|pieces|, i requires 0 <= i < |pieces| => Decode(pieces[i]))
  }

  /** The value of the first argument called `name`, like `request.args.get(name)`. */
  function Get(ps: seq<Param>, name: string): Option<string>
  {
    if ps == [] then None
    else if ps[0].name == name then Some(ps[0].value)
    else Get(ps[1..], name)
  }

  lemma PlainHasNoSeparator(s: string)
    requires IsPlain(s)
    ensures '&' !in s && '=' !in s
  {
    forall i | 0 <= i < |s| ensures s[i] != '&' && s[i] != '=' {
      assert IsPlainChar(s[i]);
    }
  }

  lemma DecodeEncode(p: Param)
    requires IsPlain(p.name) && IsPlain(p.value)
    ensures Decode(Encode(p)) == p
  {
    PlainHasNoSeparator(p.name);
    IndexAfter(p.name, '=', p.value);
    var s := Encode(p);
    assert s == p.name + ['='] + p.value;
    assert s[..|p.name|] == p.name;
    assert s[|p.name| + 1..] == p.value;
  }

  /** The pieces of a rendered query, one per argument. */
  function Pieces(ps: seq<Param>): seq<string>
  {
    seq(|ps|, i requires 0 <= i < |ps| => Encode(ps[i]))
  }

  lemma JoinNonEmpty(parts: seq<string>, sep: char)
    requires |parts| > 0 && |parts[0]| > 0
    ensures Join(parts, sep) != ""
  {
    if |parts| > 1 {
      assert Join(parts, sep)[0] == parts[0][0];
    }
  }

  lemma RenderTwo(p: Param, q: Param)
    ensures Render([p, q]) == "?" + p.name + "=" + p.value + "&" + q.name + "=" + q.value
  {
    assert Pieces([p, q]) == [Encode(p), Encode(q)];
    assert Join([Encode(p), Encode(q)], '&') == Encode(p) + "&" + Encode(q);
  }

  lemma RenderThree(p: Param, q: Param, r: Param)
    ensures Render([p, q, r])
         == "?" + p.name + "=" + p.value + "&" + q.name + "=" + q.value + "&" + r.name + "=" + r.value
  {
    var a, b, c := Encode(p), Encode(q), Encode(r);
    assert Pieces([p, q, r]) == [a, b, c];
    assert [a, b, c][1..] == [b, c];
    assert Join([b, c], '&') == b + "&" + c;
    assert Join([a, b, c], '&') == a + "&" + (b + "&" + c);
  }

  /** The back end reads exactly the arguments the front end rendered. */
  lemma ParseRender(ps: seq<Param>)
    requires forall i :: 0 <= i < |ps| ==> IsPlain(ps[i].name) && IsPlain(ps[i].value)
    ensures Parse(Render(ps)) == ps
  {
    if ps != [] {
      var pieces := Pieces(ps);
      forall i | 0 <= i < |ps| ensures '&' !in pieces[i] && Decode(pieces[i]) == ps[i] {
        PlainHasNoSeparator(ps[i].name);
        PlainHasNoSeparator(ps[i].value);
        DecodeEncode(ps[i]);
      }
      SplitJoin(pieces, '&');
      JoinNonEmpty(pieces, '&');
      var q := Render(ps);
      assert q == "?" + Join(pieces, '&');
      assert q[1..] == Join(pieces, '&');
      assert Parse(q) == DecodeAll(pieces);
      assert DecodeAll(pieces) == ps;
    }
  }
}
