/**
 * JSON strings of the query snapshots (appendSnapshotJSONString and snapshotJSONStringLen in
 * pkg/mysqlmock/diagnostics.go): UTF-8 by section 4 of RFC 3629, JSON strings by section 7 of
 * RFC 8259.
 *
 * A string holds one char per byte.
 */
module SnapshotStrings {
  import opened Options

  // ---------------------------------------------------------------------------------------------
  // UTF-8
  // ---------------------------------------------------------------------------------------------

  predicate Within(c: char, low: int, high: int) {
    low <= c as int <= high
  }

  predicate Tail(c: char) {
    Within(c, 0x80, 0xbf)
  }

  /** The second byte a lead byte of three or four allows. */
  predicate SecondFits(lead: char, c: char) {
    var b := lead as int;
    if b == 0xe0 then Within(c, 0xa0, 0xbf)
    else if b == 0xed then Within(c, 0x80, 0x9f)
    else if b == 0xf0 then Within(c, 0x90, 0xbf)
    else if b == 0xf4 then Within(c, 0x80, 0x8f)
    else Tail(c)
  }

  /** Length of the encoded character `t` starts with, 0 if its first byte starts none. */
  function RuneLen(t: string): (n: nat)
    requires t != ""
    ensures n <= |t| && n <= 4
  {
    if Within(t[0], 0, 0x7f) then 1
    else if Within(t[0], 0xc2, 0xdf) then (if |t| >= 2 && Tail(t[1]) then 2 else 0)
    else if Within(t[0], 0xe0, 0xef) then (if |t| >= 3 && SecondFits(t[0], t[1]) && Tail(t[2]) then 3 else 0)
    else if Within(t[0], 0xf0, 0xf4) then
      (if |t| >= 4 && SecondFits(t[0], t[1]) && Tail(t[2]) && Tail(t[3]) then 4 else 0)
    else 0
  }

  /** An encoded character is read the same whatever follows it. */
  lemma RuneLenLocal(x: string, y: string)
    requires x != "" && RuneLen(x) == |x|
    ensures RuneLen(x + y) == |x|
  {
  }

  function Byte(b: int): char
    requires 0 <= b <= 0xff
  {
    b as char
  }

  /** Unicode scalar values: code points but for the surrogates. */
  predicate IsScalar(cp: int) {
    0 <= cp < 0xd800 || 0xe000 <= cp < 0x11_0000
  }

  /** The encoding of a scalar value. */
  function Utf8(cp: int): (s: string)
    requires IsScalar(cp)
    ensures 0 < |s| <= 4
  {
    if cp < 0x80 then [Byte(cp)]
    else if cp < 0x800 then [Byte(0xc0 + cp / 0x40), Byte(0x80 + cp % 0x40)]
    else if cp < 0x1_0000 then [Byte(0xe0 + cp / 0x1000), Byte(0x80 + cp / 0x40 % 0x40), Byte(0x80 + cp % 0x40)]
    else [Byte(0xf0 + cp / 0x4_0000), Byte(0x80 + cp / 0x1000 % 0x40), Byte(0x80 + cp / 0x40 % 0x40), Byte(0x80 + cp % 0x40)]
  }

  /** U+FFFD, which stands for a byte that starts no character. */
  function Replacement(): string {
    Utf8(0xfffd)
  }

  /** The text with every such byte replaced. */
  function Repaired(value: string): string {
    if value == "" then ""
    else
      var n := RuneLen(value);
      if n == 0 then Replacement() + Repaired(value[1..]) else value[..n] + Repaired(value[n..])
  }

  // ---------------------------------------------------------------------------------------------
  // The encoder
  // ---------------------------------------------------------------------------------------------

  function HexDigit(d: nat): char
    requires d < 16
  {
    if d < 10 then (48 + d) as char else (87 + d) as char
  }

  /** snapshotJSONSafeASCII */
  predicate Safe(c: char) {
    c as int >= 0x20 && c != '\\' && c != '"' && c != '<' && c != '>' && c != '&'
  }

  function EscapeAscii(c: char): (s: string)
    requires c as int < 0x80
    ensures |s| == EscapeLen(c)
  {
    if c == '\\' || c == '"' then ['\\', c]
    else if c as int == 8 then "\\b"
    else if c as int == 12 then "\\f"
    else if c == '\n' then "\\n"
    else if c == '\r' then "\\r"
    else if c == '\t' then "\\t"
    else ['\\', 'u', '0', '0', HexDigit(c as int / 16), HexDigit(c as int % 16)]
  }

  function EscapeLen(c: char): nat {
    if c == '\\' || c == '"' || c as int in {8, 9, 10, 12, 13} then 2 else 6
  }

  /** The line and paragraph separators, U+2028 and U+2029. */
  predicate IsSeparator(rune: string) {
    |rune| == 3 && rune[0] as int == 0xe2 && rune[1] as int == 0x80 && rune[2] as int in {0xa8, 0xa9}
  }

  /** What is written for the character, or the stray byte, that `t` starts with. */
  function Head(t: string): string
    requires t != ""
  {
    var n := RuneLen(t);
    if t[0] as int < 0x80 then (if Safe(t[0]) then t[..1] else EscapeAscii(t[0]))
    else if n == 0 then "\\ufffd"
    else if IsSeparator(t[..n]) then "\\u202" + [HexDigit(t[2] as int % 16)]
    else t[..n]
  }

  function HeadSize(t: string): (n: nat)
    requires t != ""
    ensures 0 < n <= |t|
  {
    if RuneLen(t) == 0 then 1 else RuneLen(t)
  }

  function Body(value: string): string {
    if value == "" then "" else Head(value) + Body(value[HeadSize(value)..])
  }

  /** appendSnapshotJSONString: the encoded string with its quotes. */
  function Encoded(value: string): string {
    "\"" + (Body(value) + "\"")
  }

  // ---------------------------------------------------------------------------------------------
  // A reader of JSON strings
  // ---------------------------------------------------------------------------------------------

  function HexValue(c: char): (v: Option<nat>)
    ensures v.Some? ==> v.value < 16
  {
    if '0' <= c <= '9' then Some(c as int - 48)
    else if 'a' <= c <= 'f' then Some(c as int - 87)
    else if 'A' <= c <= 'F' then Some(c as int - 55)
    else None
  }

  datatype Unit = NoUnit | Unit(text: string, size: nat)

  /** `\uXXXX`; surrogate pairs, which the encoder never writes, are not read. */
  function ReadUnicode(t: string): (u: Unit)
    requires |t| >= 2
    ensures u.Unit? ==> 0 < u.size <= |t|
  {
    if |t| < 6 then NoUnit
    else
      var a, b, c, d := HexValue(t[2]), HexValue(t[3]), HexValue(t[4]), HexValue(t[5]);
      if a.None? || b.None? || c.None? || d.None? then NoUnit
      else
        var cp := ((a.value * 16 + b.value) * 16 + c.value) * 16 + d.value;
        if 0xd800 <= cp < 0xe000 then NoUnit else Unit(Utf8(cp), 6)
  }

  function ReadEscape(t: string): (u: Unit)
    requires t != "" && t[0] == '\\'
    ensures u.Unit? ==> 0 < u.size <= |t|
  {
    if |t| < 2 then NoUnit
    else if t[1] == '"' || t[1] == '\\' || t[1] == '/' then Unit([t[1]], 2)
    else if t[1] == 'b' then Unit([Byte(8)], 2)
    else if t[1] == 'f' then Unit([Byte(12)], 2)
    else if t[1] == 'n' then Unit("\n", 2)
    else if t[1] == 'r' then Unit("\r", 2)
    else if t[1] == 't' then Unit("\t", 2)
    else if t[1] == 'u' then ReadUnicode(t)
    else NoUnit
  }

  /** One character of a JSON string: an escape, or any character but a quote, a backslash or a control. */
  function ReadUnit(t: string): (u: Unit)
    requires t != ""
    ensures u.Unit? ==> 0 < u.size <= |t|
  {
    if t[0] == '\\' then ReadEscape(t)
    else if t[0] == '"' || t[0] as int < 0x20 || RuneLen(t) == 0 then NoUnit
    else Unit(t[..RuneLen(t)], RuneLen(t))
  }

  /** The characters up to the closing quote, and what follows it. */
  function ReadBody(t: string): (r: Option<(string, string)>)
    ensures r.Some? ==> |r.value.1| < |t|
    decreases |t|
  {
    if t == "" then None
    else if t[0] == '"' then Some(("", t[1..]))
    else
      var u := ReadUnit(t);
      if u.NoUnit? then None
      else
        var later := ReadBody(t[u.size..]);
        if later.None? then None else Some((u.text + later.value.0, later.value.1))
  }

  function ReadString(t: string): (r: Option<(string, string)>)
    ensures r.Some? ==> |r.value.1| < |t|
  {
    if t == "" || t[0] != '"' then None else ReadBody(t[1..])
  }

  // ---------------------------------------------------------------------------------------------
  // Reading back what was written
  // ---------------------------------------------------------------------------------------------

  lemma HexRoundTrip(d: nat)
    requires d < 16
    ensures HexValue(HexDigit(d)) == Some(d)
  {
  }

  /** An escaped ASCII byte is read back. */
  lemma EscapeReads(c: char, rest: string)
    requires c as int < 0x80 && !Safe(c)
    ensures EscapeAscii(c) != "" && EscapeAscii(c)[0] == '\\'
    ensures ReadUnit(EscapeAscii(c) + rest) == Unit([c], EscapeLen(c))
  {
    var t := EscapeAscii(c) + rest;
    if EscapeLen(c) == 6 {
      HexRoundTrip(c as int / 16);
      HexRoundTrip(c as int % 16);
      assert t[1] == 'u' && t[2] == '0' && t[3] == '0';
      assert t[4] == HexDigit(c as int / 16) && t[5] == HexDigit(c as int % 16);
      var hi, lo: nat := c as int / 16, c as int % 16;
      assert ((0 * 16 + 0) * 16 + hi) * 16 + lo == c as int;
      assert Utf8(c as int) == [c];
    } else {
      assert t[1] == EscapeAscii(c)[1];
    }
  }

  lemma StrayReads(rest: string)
    ensures ReadUnit("\\ufffd" + rest) == Unit(Replacement(), 6)
  {
    var t := "\\ufffd" + rest;
    assert t[0] == '\\' && t[1] == 'u' && t[2] == 'f' && t[3] == 'f' && t[4] == 'f' && t[5] == 'd';
    assert ((15 * 16 + 15) * 16 + 15) * 16 + 13 == 0xfffd;
  }

  lemma SeparatorReads(rune: string, rest: string)
    requires IsSeparator(rune)
    ensures ReadUnit(("\\u202" + [HexDigit(rune[2] as int % 16)]) + rest) == Unit(rune, 6)
  {
    var low: nat := rune[2] as int % 16;
    var t := ("\\u202" + [HexDigit(low)]) + rest;
    HexRoundTrip(low);
    assert t[0] == '\\' && t[1] == 'u' && t[2] == '2' && t[3] == '0' && t[4] == '2' && t[5] == HexDigit(low);
    var cp := ((2 * 16 + 0) * 16 + 2) * 16 + low;
    assert cp == 0x2028 || cp == 0x2029;
    assert Utf8(cp) == rune;
  }

  /** A character that is copied is read back. */
  lemma CopyReads(rune: string, rest: string)
    requires rune != "" && RuneLen(rune) == |rune| && Safe(rune[0])
    ensures ReadUnit(rune + rest) == Unit(rune, |rune|)
  {
    RuneLenLocal(rune, rest);
    assert (rune + rest)[..|rune|] == rune;
  }

  /** What the first character, or stray byte, becomes. */
  function HeadText(t: string): string
    requires t != ""
  {
    if RuneLen(t) == 0 then Replacement() else t[..RuneLen(t)]
  }

  lemma HeadReads(t: string, rest: string)
    requires t != ""
    ensures Head(t) != "" && Head(t)[0] != '"'
    ensures ReadUnit(Head(t) + rest) == Unit(HeadText(t), |Head(t)|)
  {
    hide ReadUnit, EscapeAscii, Utf8;
    var n := RuneLen(t);
    if t[0] as int < 0x80 {
      if Safe(t[0]) { CopyReads(t[..1], rest); } else { EscapeReads(t[0], rest); assert t[..1] == [t[0]]; }
    } else if n == 0 {
      StrayReads(rest);
    } else if IsSeparator(t[..n]) {
      SeparatorReads(t[..n], rest);
    } else {
      RunePrefix(t);
      CopyReads(t[..n], rest);
    }
  }

  lemma RunePrefix(t: string)
    requires t != "" && RuneLen(t) > 0
    ensures RuneLen(t[..RuneLen(t)]) == RuneLen(t)
  {
  }

  lemma {:induction false} BodyReads(value: string, rest: string)
    ensures ReadBody(Body(value) + ("\"" + rest)) == Some((Repaired(value), rest))
    decreases |value|
  {
    hide Head, ReadUnit, Utf8;
    var end := "\"" + rest;
    if value == "" {
      assert Body(value) + end == end && end[1..] == rest;
    } else {
      var head, later := Head(value), Body(value[HeadSize(value)..]);
      var t := Body(value) + end;
      assert t == head + (later + end);
      HeadReads(value, later + end);
      BodyReads(value[HeadSize(value)..], rest);
      assert t[|head|..] == later + end;
      assert t[0] == head[0];
      assert Repaired(value) == HeadText(value) + Repaired(value[HeadSize(value)..]);
    }
  }

  /**
   * Reading an encoded string back gives the value with every byte that starts no UTF-8 character
   * replaced by U+FFFD, and stops at its closing quote whatever follows.
   */
  lemma EncodedReads(value: string, rest: string)
    ensures ReadString(Encoded(value) + rest) == Some((Repaired(value), rest))
  {
    BodyReads(value, rest);
    hide Body, ReadBody, Repaired;
    assert Encoded(value) + rest == "\"" + (Body(value) + ("\"" + rest));
    assert ("\"" + (Body(value) + ("\"" + rest)))[1..] == Body(value) + ("\"" + rest);
  }

  predicate AllValid(value: string) {
    value == "" || (RuneLen(value) > 0 && AllValid(value[RuneLen(value)..]))
  }

  /** Valid UTF-8 comes back unchanged. */
  lemma {:induction false} ValidIsUnchanged(value: string)
    requires AllValid(value)
    ensures Repaired(value) == value
    decreases |value|
  {
    if value != "" {
      ValidIsUnchanged(value[RuneLen(value)..]);
    }
  }

  // ---------------------------------------------------------------------------------------------
  // The loops
  // ---------------------------------------------------------------------------------------------

  /** Bytes up to `i` are copied together once a byte has to be escaped, or at the end. */
  method AppendSnapshotJsonString(out: string, value: string) returns (r: string)
    ensures r == out + Encoded(value)
  {
    hide Body, Head, HeadSize, RuneLen, EscapeAscii, Safe, IsSeparator;
    r := out + "\"";
    var start, i := 0, 0;
    ghost var goal := r + Body(value);
    assert value[0..] == value && value[0..0] == "" && r + "" == r;
    while i < |value|
      invariant 0 <= start <= i <= |value|
      invariant goal == (r + value[start..i]) + Body(value[i..])
    {
      BodyStep(value, i);
      ghost var here := r + value[start..i];
      ghost var size := HeadSize(value[i..]);
      assert here + (Head(value[i..]) + Body(value[i + size..])) == (here + Head(value[i..])) + Body(value[i + size..]);
      var c := value[i];
      if c as int < 0x80 {
        AsciiHead(value, i);
        if Safe(c) {
          Grow(r, value, start, i, 1);
          i := i + 1;
          continue;
        }
        r := r + value[start..i];
        r := r + EscapeAscii(c);
        i := i + 1;
        start := i;
        Fresh(r, value, i);
        continue;
      }
      WideHead(value, i);
      var n := RuneLen(value[i..]);
      if n == 0 {
        r := r + value[start..i];
        r := r + "\\ufffd";
        i := i + 1;
        start := i;
        Fresh(r, value, i);
        continue;
      }
      if IsSeparator(value[i..i + n]) {
        SeparatorSize(value[i..i + n]);
        r := r + value[start..i];
        r := r + ("\\u202" + [HexDigit(value[i + 2] as int % 16)]);
        i := i + n;
        start := i;
        Fresh(r, value, i);
        continue;
      }
      Grow(r, value, start, i, n);
      i := i + n;
    }
    assert value[i..] == "";
    BodyEnd(r + value[start..i]);
    assert value[start..] == value[start..i];
    r := r + value[start..];
    r := r + "\"";
    assert r == out + Encoded(value);
  }

  lemma BodyEnd(x: string)
    ensures x + Body("") == x
  {
  }

  lemma BodyStep(value: string, i: nat)
    requires i < |value|
    ensures var size := HeadSize(value[i..]);
            i + size <= |value| && Body(value[i..]) == Head(value[i..]) + Body(value[i + size..])
  {
    hide Head;
    var size := HeadSize(value[i..]);
    assert value[i..][size..] == value[i + size..];
  }

  lemma AsciiHead(value: string, i: nat)
    requires i < |value| && value[i] as int < 0x80
    ensures HeadSize(value[i..]) == 1
    ensures Head(value[i..]) == if Safe(value[i]) then value[i..i + 1] else EscapeAscii(value[i])
  {
    hide EscapeAscii;
    assert value[i..][..1] == value[i..i + 1];
  }

  lemma WideHead(value: string, i: nat)
    requires i < |value| && value[i] as int >= 0x80
    ensures var n := RuneLen(value[i..]);
            && i + n <= |value|
            && HeadSize(value[i..]) == (if n == 0 then 1 else n)
            && (n == 0 ==> Head(value[i..]) == "\\ufffd")
            && (n > 0 && IsSeparator(value[i..i + n]) ==>
                  n == 3 && Head(value[i..]) == "\\u202" + [HexDigit(value[i + 2] as int % 16)])
            && (n > 0 && !IsSeparator(value[i..i + n]) ==> Head(value[i..]) == value[i..i + n])
  {
    hide RuneLen;
    var n := RuneLen(value[i..]);
    assert value[i..][..n] == value[i..i + n];
  }

  lemma SeparatorSize(rune: string)
    requires IsSeparator(rune)
    ensures |rune| == 3
  {
  }

  lemma Grow(r: string, value: string, start: nat, i: nat, n: nat)
    requires start <= i && i + n <= |value|
    ensures (r + value[start..i]) + value[i..i + n] == r + value[start..i + n]
  {
  }

  lemma Fresh(r: string, value: string, i: nat)
    requires i <= |value|
    ensures r + value[i..i] == r
  {
  }

  method SnapshotJsonStringLen(value: string) returns (size: nat)
    ensures size == |Encoded(value)|
  {
    hide Body, Head, HeadSize, RuneLen, EscapeAscii, Safe, IsSeparator, EscapeLen;
    size := 2;
    var i := 0;
    assert value[0..] == value;
    while i < |value|
      invariant 0 <= i <= |value|
      invariant |Body(value)| + 2 == size + |Body(value[i..])|
    {
      BodyStep(value, i);
      var c := value[i];
      if c as int < 0x80 {
        AsciiHead(value, i);
        if Safe(c) {
          size := size + 1;
        } else {
          size := size + EscapeLen(c);
        }
        i := i + 1;
        continue;
      }
      WideHead(value, i);
      var n := RuneLen(value[i..]);
      if n == 0 {
        size := size + 6;
        i := i + 1;
        continue;
      }
      if IsSeparator(value[i..i + n]) {
        size := size + 6;
        i := i + n;
        continue;
      }
      size := size + n;
      i := i + n;
    }
    assert value[i..] == "";
    BodyEnd("");
    assert |Body("")| == 0 by { assert "" + Body("") == Body(""); }
  }

  // ---------------------------------------------------------------------------------------------
  // What counts as a rune, and what is never written raw
  // ---------------------------------------------------------------------------------------------

  lemma ScalarIsRune(cp: int, rest: string)
    requires IsScalar(cp)
    ensures RuneLen(Utf8(cp) + rest) == |Utf8(cp)|
  {
    var s, t := Utf8(cp), Utf8(cp) + rest;
    assert forall i :: 0 <= i < |s| ==> t[i] == s[i];
  }

  lemma SixBits(a: nat, b: nat)
    requires b < 0x40
    ensures (0x40 * a + b) / 0x40 == a && (0x40 * a + b) % 0x40 == b
  {
  }

  lemma Shifted(n: nat)
    ensures n / 0x1000 == n / 0x40 / 0x40 && n / 0x4_0000 == n / 0x40 / 0x40 / 0x40
  {
  }

  lemma RuneIsScalar(t: string) returns (cp: int)
    requires t != "" && RuneLen(t) > 0
    ensures IsScalar(cp) && Utf8(cp) == t[..RuneLen(t)]
  {
    var n := RuneLen(t);
    if n == 1 {
      cp := t[0] as int;
    } else if n == 2 {
      cp := 0x40 * (t[0] as int - 0xc0) + (t[1] as int - 0x80);
    } else if n == 3 {
      cp := ThreeBytes(t);
    } else {
      cp := FourBytes(t);
    }
    assert forall i :: 0 <= i < n ==> Utf8(cp)[i] == t[i];
  }

  lemma ThreeBytes(t: string) returns (cp: int)
    requires t != "" && RuneLen(t) == 3
    ensures IsScalar(cp) && Utf8(cp) == [t[0], t[1], t[2]]
  {
    var a, b, c := t[0] as int - 0xe0, t[1] as int - 0x80, t[2] as int - 0x80;
    SixBits(a, b);
    SixBits(0x40 * a + b, c);
    cp := 0x40 * (0x40 * a + b) + c;
    Shifted(cp);
  }

  lemma FourBytes(t: string) returns (cp: int)
    requires t != "" && RuneLen(t) == 4
    ensures IsScalar(cp) && Utf8(cp) == [t[0], t[1], t[2], t[3]]
  {
    var a, b, c, d := t[0] as int - 0xf0, t[1] as int - 0x80, t[2] as int - 0x80, t[3] as int - 0x80;
    SixBits(a, b);
    SixBits(0x40 * a + b, c);
    SixBits(0x40 * (0x40 * a + b) + c, d);
    cp := 0x40 * (0x40 * (0x40 * a + b) + c) + d;
    Shifted(cp);
  }

  /** A text starts with a rune exactly if it starts with the encoding of a scalar value. */
  lemma RuneExact(t: string, n: nat)
    requires t != "" && n > 0
    ensures RuneLen(t) == n <==> exists cp :: IsScalar(cp) && |Utf8(cp)| == n && Utf8(cp) <= t
  {
    hide RuneLen, Utf8, IsScalar;
    if RuneLen(t) == n {
      var cp := RuneIsScalar(t);
    }
    forall cp | IsScalar(cp) && |Utf8(cp)| == n && Utf8(cp) <= t
      ensures RuneLen(t) == n
    {
      ScalarIsRune(cp, t[n..]);
      assert Utf8(cp) + t[n..] == t;
    }
  }

  /** No byte below 0x20, no characters of HTML. */
  predicate Inoffensive(s: string) {
    forall c :: c in s ==> c as int >= 0x20 && c != '<' && c != '>' && c != '&'
  }

  /** No rune of the text is a line or paragraph separator. */
  predicate NoSeparators(s: string)
    decreases |s|
  {
    s == "" || (RuneLen(s) > 0 && s[..RuneLen(s)] != Utf8(0x2028) && s[..RuneLen(s)] != Utf8(0x2029) && NoSeparators(s[RuneLen(s)..]))
  }

  lemma HeadInoffensive(t: string)
    requires t != ""
    ensures Inoffensive(Head(t))
  {
  }

  lemma {:induction false} AsciiThen(head: string, rest: string)
    requires (forall c :: c in head ==> c as int < 0x80) && NoSeparators(rest)
    ensures NoSeparators(head + rest)
  {
    if head == "" {
      assert head + rest == rest;
    } else {
      var s := head + rest;
      assert head[0] in head && s[0] == head[0] && s[1..] == head[1..] + rest;
      assert forall c :: c in head[1..] ==> c in head;
      AsciiThen(head[1..], rest);
      assert |s[..1]| == 1 && |Utf8(0x2028)| == 3 && |Utf8(0x2029)| == 3;
    }
  }

  lemma HeadSeparates(t: string, rest: string)
    requires t != "" && NoSeparators(rest)
    ensures NoSeparators(Head(t) + rest)
  {
    var n := RuneLen(t);
    if (forall c :: c in Head(t) ==> c as int < 0x80) {
      AsciiThen(Head(t), rest);
    } else {
      var rune, s := t[..n], t[..n] + rest;
      assert Head(t) == rune;
      RunePrefix(t);
      RuneLenLocal(rune, rest);
      assert s[..n] == rune && s[n..] == rest;
      SeparatorsAre(rune);
    }
  }

  lemma SeparatorsAre(rune: string)
    ensures rune == Utf8(0x2028) || rune == Utf8(0x2029) ==> IsSeparator(rune)
  {
  }

  /**
   * What is written between the quotes has no byte below 0x20, none of `<`, `>` and `&`, and no line or
   * paragraph separator.
   */
  lemma {:induction false} BodyInoffensive(value: string)
    ensures Inoffensive(Body(value)) && NoSeparators(Body(value))
    decreases |value|
  {
    if value != "" {
      var rest := Body(value[HeadSize(value)..]);
      BodyInoffensive(value[HeadSize(value)..]);
      HeadInoffensive(value);
      HeadSeparates(value, rest);
      assert Body(value) == Head(value) + rest;
      hide Head, NoSeparators, Body, HeadSize;
      Together(Head(value), rest);
    }
  }

  lemma Together(a: string, b: string)
    requires Inoffensive(a) && Inoffensive(b)
    ensures Inoffensive(a + b)
  {
  }
}
