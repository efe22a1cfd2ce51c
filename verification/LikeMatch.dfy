/**
 * LIKE patterns (sqlLikeMatch, sqlLikeMatchAt and equalASCIIFoldByte in
 * pkg/mysqlmock/active_record_compat.go).
 *
 * A value matches when it can be cut into pieces, one for each pattern byte: anything for `%`, one
 * byte for `_`, and for any other byte that byte in either case.
 */
module LikeMatch {

  import Text
  import opened Sequences

  predicate EqualFoldByte(a: char, b: char) {
    Text.LowerChar(a) == Text.LowerChar(b)
  }

  // ---------------------------------------------------------------------------------------------
  // What a pattern means
  // ---------------------------------------------------------------------------------------------

  /** The same byte, or the same letter in either case. */
  predicate SameLetter(a: char, b: char) {
    || a == b
    || ('A' <= a <= 'Z' && b as int == a as int + 32)
    || ('A' <= b <= 'Z' && a as int == b as int + 32)
  }

  predicate PieceFits(piece: string, p: char) {
    if p == '%' then true
    else if p == '_' then |piece| == 1
    else |piece| == 1 && SameLetter(piece[0], p)
  }

  predicate Cuts(value: string, pattern: string, pieces: seq<string>) {
    && |pieces| == |pattern| && Concat(pieces) == value
    && forall i :: 0 <= i < |pieces| ==> PieceFits(pieces[i], pattern[i])
  }

  ghost predicate Means(value: string, pattern: string) {
    exists pieces :: Cuts(value, pattern, pieces)
  }

  // ---------------------------------------------------------------------------------------------
  // The same, one pattern byte at a time
  // ---------------------------------------------------------------------------------------------

  predicate Like(value: string, pattern: string)
    decreases |pattern|
  {
    if pattern == "" then value == ""
    else if pattern[0] == '%' then exists k :: 0 <= k <= |value| && Like(value[k..], pattern[1..])
    else value != "" && (pattern[0] == '_' || EqualFoldByte(value[0], pattern[0])) && Like(value[1..], pattern[1..])
  }

  lemma CutsCons(piece: string, value: string, pattern: string, pieces: seq<string>)
    requires pattern != "" && PieceFits(piece, pattern[0]) && Cuts(value, pattern[1..], pieces)
    ensures Cuts(piece + value, pattern, [piece] + pieces)
  {
    var all := [piece] + pieces;
    assert all[1..] == pieces;
    forall i | 0 <= i < |all|
      ensures PieceFits(all[i], pattern[i])
    {
      if i > 0 {
        assert PieceFits(pieces[i - 1], pattern[1..][i - 1]);
      }
    }
  }

  lemma CutsTail(value: string, pattern: string, pieces: seq<string>)
    requires pattern != "" && Cuts(value, pattern, pieces)
    ensures PieceFits(pieces[0], pattern[0]) && value == pieces[0] + Concat(pieces[1..])
    ensures Cuts(Concat(pieces[1..]), pattern[1..], pieces[1..])
  {
    forall i | 0 <= i < |pieces| - 1
      ensures PieceFits(pieces[1..][i], pattern[1..][i])
    {
      assert PieceFits(pieces[i + 1], pattern[i + 1]);
    }
  }

  lemma {:induction false} LikeCuts(value: string, pattern: string) returns (pieces: seq<string>)
    requires Like(value, pattern)
    ensures Cuts(value, pattern, pieces)
    decreases |pattern|
  {
    if pattern == "" {
      pieces := [];
    } else {
      var k := 1;
      if pattern[0] == '%' {
        k :| 0 <= k <= |value| && Like(value[k..], pattern[1..]);
      }
      var later := LikeCuts(value[k..], pattern[1..]);
      CutsCons(value[..k], value[k..], pattern, later);
      assert value[..k] + value[k..] == value;
      pieces := [value[..k]] + later;
    }
  }

  lemma {:induction false} CutsLike(value: string, pattern: string, pieces: seq<string>)
    requires Cuts(value, pattern, pieces)
    ensures Like(value, pattern)
    decreases |pattern|
  {
    if pattern != "" {
      CutsTail(value, pattern, pieces);
      var k := |pieces[0]|;
      assert value[k..] == Concat(pieces[1..]);
      CutsLike(value[k..], pattern[1..], pieces[1..]);
    }
  }

  /** The byte-by-byte reading is the meaning. */
  lemma LikeIsMeaning(value: string, pattern: string)
    ensures Like(value, pattern) <==> Means(value, pattern)
  {
    if Like(value, pattern) {
      var pieces := LikeCuts(value, pattern);
    }
    if Means(value, pattern) {
      var pieces :| Cuts(value, pattern, pieces);
      CutsLike(value, pattern, pieces);
    }
  }

  /** A run of `%` is as good as one. */
  lemma PercentTwice(value: string, rest: string)
    ensures Like(value, "%" + ("%" + rest)) <==> Like(value, "%" + rest)
  {
    var one := "%" + rest;
    var two := "%" + one;
    assert one[1..] == rest && two[1..] == one;
    if Like(value, two) {
      var k :| 0 <= k <= |value| && Like(value[k..], one);
      var j :| 0 <= j <= |value[k..]| && Like(value[k..][j..], rest);
      assert value[k..][j..] == value[k + j..];
    }
    if Like(value, one) {
      assert value[0..] == value;
    }
  }

  /** A value matches itself, in any case, unless the pattern has a wildcard to say otherwise. */
  lemma {:induction false} PlainPattern(value: string, pattern: string)
    requires '%' !in pattern && '_' !in pattern
    ensures Like(value, pattern) <==>
              |value| == |pattern| && forall i :: 0 <= i < |value| ==> EqualFoldByte(value[i], pattern[i])
    decreases |pattern|
  {
    hide EqualFoldByte;
    if pattern != "" {
      assert pattern[0] in pattern;
      if value != "" {
        PlainPattern(value[1..], pattern[1..]);
        if Like(value, pattern) {
          forall i | 0 <= i < |value|
            ensures EqualFoldByte(value[i], pattern[i])
          {
            if i > 0 {
              assert EqualFoldByte(value[1..][i - 1], pattern[1..][i - 1]);
            }
          }
        }
      }
    }
  }

  // ---------------------------------------------------------------------------------------------
  // The matcher
  // ---------------------------------------------------------------------------------------------

  /** One pattern byte that is not `%`, by position. */
  lemma OneByte(value: string, pattern: string, v: nat, p: nat)
    requires v <= |value| && p < |pattern| && pattern[p] != '%'
    ensures Like(value[v..], pattern[p..]) <==>
              v < |value| && (pattern[p] == '_' || EqualFoldByte(value[v], pattern[p])) && Like(value[v + 1..], pattern[p + 1..])
  {
    assert pattern[p..][1..] == pattern[p + 1..];
    if v < |value| {
      assert value[v..][1..] == value[v + 1..];
    }
  }

  lemma SkipPercent(value: string, pattern: string, v: nat, p: nat)
    requires v <= |value| && p + 1 < |pattern| && pattern[p] == '%' && pattern[p + 1] == '%'
    ensures Like(value[v..], pattern[p..]) <==> Like(value[v..], pattern[p + 1..])
  {
    var rest := pattern[p + 2..];
    assert pattern[p..] == "%" + ("%" + rest) && pattern[p + 1..] == "%" + rest;
    PercentTwice(value[v..], rest);
  }

  /** What is left of a `%`: some position from here on must match the rest. */
  lemma AfterPercent(value: string, pattern: string, v: nat, p: nat)
    requires v <= |value| && 0 < p <= |pattern| && pattern[p - 1] == '%'
    ensures Like(value[v..], pattern[p - 1..]) <==> exists i :: v <= i <= |value| && Like(value[i..], pattern[p..])
  {
    assert pattern[p - 1..][1..] == pattern[p..];
    if Like(value[v..], pattern[p - 1..]) {
      var k :| 0 <= k <= |value[v..]| && Like(value[v..][k..], pattern[p..]);
      assert value[v..][k..] == value[v + k..];
    }
    if i :| v <= i <= |value| && Like(value[i..], pattern[p..]) {
      assert value[v..][i - v..] == value[i..];
    }
  }

  lemma LastPercent(value: string, pattern: string, v: nat)
    requires v <= |value| && pattern != "" && pattern[|pattern| - 1] == '%'
    ensures Like(value[v..], pattern[|pattern| - 1..])
  {
    AfterPercent(value, pattern, v, |pattern|);
    assert Like(value[|value|..], pattern[|pattern|..]);
  }

  method SqlLikeMatchAt(value: string, pattern: string, valuePos: nat, patternPos: nat) returns (matches: bool)
    requires valuePos <= |value| && patternPos <= |pattern|
    ensures matches <==> Like(value[valuePos..], pattern[patternPos..])
    decreases |pattern| - patternPos
  {
    hide Like, EqualFoldByte;
    var v, p := valuePos, patternPos;
    while p < |pattern|
      invariant valuePos <= v <= |value| && patternPos <= p <= |pattern|
      invariant Like(value[valuePos..], pattern[patternPos..]) <==> Like(value[v..], pattern[p..])
    {
      if pattern[p] == '%' {
        ghost var start := p;
        while p < |pattern| && pattern[p] == '%'
          invariant start <= p <= |pattern| && (p > start ==> pattern[p - 1] == '%')
          invariant p > start ==> (Like(value[v..], pattern[start..]) <==> Like(value[v..], pattern[p - 1..]))
          decreases |pattern| - p
        {
          if p > start {
            SkipPercent(value, pattern, v, p - 1);
          }
          p := p + 1;
        }
        if p == |pattern| {
          LastPercent(value, pattern, v);
          return true;
        }
        AfterPercent(value, pattern, v, p);
        for i := v to |value| + 1
          invariant forall j :: v <= j < i ==> !Like(value[j..], pattern[p..])
        {
          var here := SqlLikeMatchAt(value, pattern, i, p);
          if here {
            return true;
          }
        }
        return false;
      }
      OneByte(value, pattern, v, p);
      if v >= |value| || (pattern[p] != '_' && !EqualFoldByte(value[v], pattern[p])) {
        return false;
      }
      v, p := v + 1, p + 1;
    }
    EndOfPattern(value, pattern, v);
    return v == |value|;
  }

  lemma EndOfPattern(value: string, pattern: string, v: nat)
    requires v <= |value|
    ensures Like(value[v..], pattern[|pattern|..]) <==> v == |value|
  {
  }

  /** The matcher decides the meaning of the pattern. */
  method SqlLikeMatch(value: string, pattern: string) returns (matches: bool)
    ensures matches <==> Means(value, pattern)
  {
    matches := SqlLikeMatchAt(value, pattern, 0, 0);
    assert value[0..] == value && pattern[0..] == pattern;
    LikeIsMeaning(value, pattern);
  }
}
