/**
 * String helpers shared by the model: substring search, splitting and joining on
 * a single separator character (java.lang.String.split with a one-character
 * literal pattern), white-space stripping and decimal numerals.
 */
module Text {
  import opened Wrappers

  /** `t` occurs in `s` at position `i`. */
  predicate OccursAt(s: string, t: string, i: nat)
  {
    i + |t| <= |s| && s[i..i + |t|] == t
  }

  /** String.contains: `t` occurs somewhere in `s`. */
  predicate Contains(s: string, t: string)
    decreases |s|
  {
    OccursAt(s, t, 0) || (|s| > 0 && Contains(s[1..], t))
  }

  lemma {:induction false} ContainsIff(s: string, t: string)
    ensures Contains(s, t) <==> exists i: nat :: OccursAt(s, t, i)
    decreases |s|
  {
    if Contains(s, t) {
      if !OccursAt(s, t, 0) {
        ContainsIff(s[1..], t);
        var i: nat :| OccursAt(s[1..], t, i);
        assert s[1..][i..i + |t|] == s[i + 1..i + 1 + |t|];
        assert OccursAt(s, t, i + 1);
      }
    } else if exists i: nat :: OccursAt(s, t, i) {
      var i: nat :| OccursAt(s, t, i);
      assert i != 0;
      assert s[1..][i - 1..i - 1 + |t|] == s[i..i + |t|];
      assert OccursAt(s[1..], t, i - 1);
      ContainsIff(s[1..], t);
      assert false;
    }
  }

  /** A string that contains `t` holds every character of `t`. */
  lemma ContainsChar(s: string, t: string, k: nat)
    requires Contains(s, t) && k < |t|
    ensures t[k] in s
  {
    ContainsIff(s, t);
    var i: nat :| OccursAt(s, t, i);
    assert s[i + k] == s[i..i + |t|][k];
  }

  /** A string without some character of `t` does not contain `t`. */
  lemma NotContainsChar(s: string, t: string, k: nat)
    requires k < |t| && t[k] !in s
    ensures !Contains(s, t)
  {
    if Contains(s, t) {
      ContainsChar(s, t, k);
    }
  }

  /** Appending a character `t` does not hold neither creates nor removes an occurrence of `t`. */
  lemma ContainsAppend(s: string, c: char, t: string)
    requires c !in t
    ensures Contains(s + [c], t) <==> Contains(s, t)
  {
    var sc := s + [c];
    ContainsIff(sc, t);
    ContainsIff(s, t);
    if Contains(sc, t) && |t| > 0 {
      var i: nat :| OccursAt(sc, t, i);
      assert sc[i..i + |t|][|t| - 1] == sc[i + |t| - 1];
      assert sc[i..i + |t|] == s[i..i + |t|];
      assert OccursAt(s, t, i);
    } else if Contains(sc, t) {
      assert OccursAt(s, t, 0);
    }
    if Contains(s, t) {
      var i: nat :| OccursAt(s, t, i);
      assert sc[i..i + |t|] == s[i..i + |t|];
      assert OccursAt(sc, t, i);
    }
  }

  /** An occurrence of `t` in `s` is one in `p + s` too. */
  lemma ContainsAfter(p: string, s: string, t: string)
    requires Contains(s, t)
    ensures Contains(p + s, t)
  {
    ContainsIff(s, t);
    var j: nat :| OccursAt(s, t, j);
    assert (p + s)[|p| + j..|p| + j + |t|] == s[j..j + |t|];
    assert OccursAt(p + s, t, |p| + j);
    ContainsIff(p + s, t);
  }

  /** A prefix without the first character of `t` neither creates nor removes an occurrence of `t`. */
  lemma ContainsPrepend(p: string, s: string, t: string)
    requires |t| > 0 && t[0] !in p
    ensures Contains(p + s, t) <==> Contains(s, t)
  {
    if Contains(p + s, t) {
      var ps := p + s;
      ContainsIff(ps, t);
      var j: nat :| OccursAt(ps, t, j);
      assert ps[j] == t[0] by { assert ps[j..j + |t|][0] == ps[j]; }
      assert forall k :: 0 <= k < |p| ==> ps[k] == p[k];
      assert s[j - |p|..j - |p| + |t|] == ps[j..j + |t|];
      assert OccursAt(s, t, j - |p|);
      ContainsIff(s, t);
    }
    if Contains(s, t) {
      ContainsAfter(p, s, t);
    }
  }

  /** Every piece of `s` between occurrences of `c`, empty pieces included. */
  function SplitAll(s: string, c: char): (r: seq<string>)
    ensures |r| >= 1
    decreases |s|
  {
    if |s| == 0 then [""]
    else
      var rest := SplitAll(s[1..], c);
      if s[0] == c then [""] + rest else [[s[0]] + rest[0]] + rest[1..]
  }

  /** The pieces glued back together with `c` between neighbours. */
  function Join(parts: seq<string>, c: char): string
    decreases |parts|
  {
    if |parts| == 0 then ""
    else if |parts| == 1 then parts[0]
    else parts[0] + [c] + Join(parts[1..], c)
  }

  lemma {:induction false} JoinSplitAll(s: string, c: char)
    ensures Join(SplitAll(s, c), c) == s
    ensures forall i :: 0 <= i < |SplitAll(s, c)| ==> c !in SplitAll(s, c)[i]
    decreases |s|
  {
    if |s| > 0 {
      JoinSplitAll(s[1..], c);
      var rest := SplitAll(s[1..], c);
      if s[0] == c {
        assert SplitAll(s, c) == [""] + rest;
        assert ([""] + rest)[1..] == rest;
        assert s == [c] + s[1..];
      } else {
        var r := SplitAll(s, c);
        assert r == [[s[0]] + rest[0]] + rest[1..];
        assert r[1..] == rest[1..];
        if |rest| == 1 {
          assert s == [s[0]] + rest[0];
        } else {
          assert Join(rest, c) == rest[0] + [c] + Join(rest[1..], c);
          assert Join(r, c) == [s[0]] + rest[0] + [c] + Join(rest[1..], c);
          assert s == [s[0]] + s[1..];
        }
      }
    }
  }

  lemma {:induction false} SplitAllJoin(parts: seq<string>, c: char)
    requires |parts| >= 1
    requires forall i :: 0 <= i < |parts| ==> c !in parts[i]
    ensures SplitAll(Join(parts, c), c) == parts
    decreases |parts|, |parts[0]|
  {
    if |parts[0]| > 0 {
      // peel the first character off the first piece
      var p := parts[0];
      var shorter := [p[1..]] + parts[1..];
      assert forall i :: 0 <= i < |shorter| ==> c !in shorter[i] by {
        forall i | 0 <= i < |shorter| ensures c !in shorter[i] {
          if i == 0 { assert forall x :: x in p[1..] ==> x in p; } else { assert shorter[i] == parts[i]; }
        }
      }
      SplitAllJoin(shorter, c);
      assert shorter[1..] == parts[1..];
      if |parts| == 1 {
        assert Join(parts, c) == p;
        assert Join(shorter, c) == p[1..];
      } else {
        assert Join(parts, c) == p + [c] + Join(parts[1..], c);
        assert Join(shorter, c) == p[1..] + [c] + Join(parts[1..], c);
      }
      var s := Join(parts, c);
      assert s[0] == p[0] && p[0] != c;
      assert s[1..] == Join(shorter, c);
      assert [p[0]] + p[1..] == p;
      assert [[p[0]] + p[1..]] + parts[1..] == parts;
    } else if |parts| > 1 {
      SplitAllJoin(parts[1..], c);
      var s := Join(parts, c);
      assert s == [c] + Join(parts[1..], c);
      assert s[1..] == Join(parts[1..], c);
      assert [""] + parts[1..] == parts;
    }
  }

  lemma {:induction false} JoinSnoc(parts: seq<string>, last: string, c: char)
    requires |parts| >= 1
    ensures Join(parts + [last], c) == Join(parts, c) + [c] + last
    decreases |parts|
  {
    if |parts| == 1 {
      assert (parts + [last])[1..] == [last];
    } else {
      assert (parts + [last])[1..] == parts[1..] + [last];
      JoinSnoc(parts[1..], last, c);
    }
  }

  /** Drops the empty strings at the end, as String.split(regex) does. */
  function DropTrailingEmpty(parts: seq<string>): (r: seq<string>)
    ensures |r| <= |parts| && r == parts[..|r|]
    ensures |r| > 0 ==> r[|r| - 1] != ""
    ensures forall i :: |r| <= i < |parts| ==> parts[i] == ""
    decreases |parts|
  {
    if |parts| == 0 then []
    else if parts[|parts| - 1] == "" then DropTrailingEmpty(parts[..|parts| - 1])
    else parts
  }

  /**
   * String.split with a one-character literal pattern: the whole string when `c`
   * does not occur, otherwise the pieces without the trailing empty ones.
   */
  function JavaSplit(s: string, c: char): seq<string>
  {
    if c !in s then [s] else DropTrailingEmpty(SplitAll(s, c))
  }

  lemma JavaSplitPieces(s: string, c: char)
    ensures var j := JavaSplit(s, c); forall i :: 0 <= i < |j| ==> c !in j[i]
    ensures c !in s ==> JavaSplit(s, c) == [s]
    ensures c in s ==> var j, all := JavaSplit(s, c), SplitAll(s, c);
      |j| <= |all| && j == all[..|j|] && forall i :: |j| <= i < |all| ==> all[i] == ""
  {
    if c in s {
      var all := SplitAll(s, c);
      var r := DropTrailingEmpty(all);
      assert JavaSplit(s, c) == r;
      JoinSplitAll(s, c);
      forall i | 0 <= i < |r| ensures c !in r[i] {
        assert r[i] == all[i];
      }
    }
  }

  /**
   * java.lang.Character.isWhitespace, which String.strip uses: the ASCII controls
   * TAB to CR and FS to US, and every Unicode space, line or paragraph separator
   * except the no-break spaces U+00A0, U+2007 and U+202F.
   */
  predicate IsWhitespace(ch: char)
  {
    || ch == ' ' || ('\t' <= ch <= '\r') || ('\U{001C}' <= ch <= '\U{001F}')
    || ch == '\U{1680}' || ('\U{2000}' <= ch <= '\U{2006}') || ('\U{2008}' <= ch <= '\U{200A}')
    || ch == '\U{2028}' || ch == '\U{2029}' || ch == '\U{205F}' || ch == '\U{3000}'
  }

  /** Java's white space reaches past ASCII, but not to the no-break spaces. */
  lemma WhitespaceBeyondAscii()
    ensures IsWhitespace('\U{3000}') && IsWhitespace('\U{2028}') && IsWhitespace('\U{1680}')
    ensures !IsWhitespace('\U{00A0}') && !IsWhitespace('\U{2007}') && !IsWhitespace('\U{202F}')
  {
  }

  function StripLeading(s: string): (r: string)
    ensures |r| <= |s| && r == s[|s| - |r|..]
    ensures |r| > 0 ==> !IsWhitespace(r[0])
    ensures forall i :: 0 <= i < |s| - |r| ==> IsWhitespace(s[i])
    decreases |s|
  {
    if |s| > 0 && IsWhitespace(s[0]) then StripLeading(s[1..]) else s
  }

  function StripTrailing(s: string): (r: string)
    ensures |r| <= |s| && r == s[..|r|]
    ensures |r| > 0 ==> !IsWhitespace(r[|r| - 1])
    ensures forall i :: |r| <= i < |s| ==> IsWhitespace(s[i])
    decreases |s|
  {
    if |s| > 0 && IsWhitespace(s[|s| - 1]) then StripTrailing(s[..|s| - 1]) else s
  }

  /** String.strip: white space removed from both ends. */
  function Strip(s: string): string
  {
    StripTrailing(StripLeading(s))
  }

  /** A leading white-space character, U+3000 as much as ' ', is stripped away. */
  lemma StripDropsWhitespace(c: char, s: string)
    requires IsWhitespace(c)
    ensures Strip([c] + s) == Strip(s)
  {
    assert ([c] + s)[1..] == s;
  }

  // ---- decimal numerals ----

  predicate IsDigit(ch: char)
  {
    '0' <= ch <= '9'
  }

  function DigitChar(d: nat): (ch: char)
    requires d < 10
    ensures IsDigit(ch) && ch as int - '0' as int == d
  {
    ('0' as int + d) as char
  }

  /** String.valueOf of a non-negative number: its shortest decimal numeral. */
  function NatToDecimal(n: nat): (r: string)
    ensures |r| >= 1 && forall i :: 0 <= i < |r| ==> IsDigit(r[i])
    ensures |r| > 1 ==> r[0] != '0'
    decreases n
  {
    if n < 10 then [DigitChar(n)] else NatToDecimal(n / 10) + [DigitChar(n % 10)]
  }

  /** The value of a string of digits. */
  function DigitsValue(s: string): nat
    requires forall i :: 0 <= i < |s| ==> IsDigit(s[i])
    decreases |s|
  {
    if |s| == 0 then 0
    else
      assert IsDigit(s[|s| - 1]);
      DigitsValue(s[..|s| - 1]) * 10 + (s[|s| - 1] as int - '0' as int)
  }

  /** An unsigned decimal numeral: one or more digits and nothing else. */
  function ParseDecimal(s: string): (r: Option<nat>)
    ensures r.Some? <==> |s| > 0 && forall i :: 0 <= i < |s| ==> IsDigit(s[i])
  {
    if |s| > 0 && forall i :: 0 <= i < |s| ==> IsDigit(s[i]) then Some(DigitsValue(s)) else None
  }

  lemma {:induction false} DecimalRoundTrip(n: nat)
    ensures ParseDecimal(NatToDecimal(n)) == Some(n)
    decreases n
  {
    var r := NatToDecimal(n);
    if n < 10 {
      assert r[..|r| - 1] == [];
      assert DigitsValue(r) == n;
    } else {
      DecimalRoundTrip(n / 10);
      assert r[..|r| - 1] == NatToDecimal(n / 10);
      assert DigitsValue(r) == DigitsValue(NatToDecimal(n / 10)) * 10 + n % 10;
    }
  }
}
