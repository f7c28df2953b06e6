/** ASCII text primitives the components rely on: JavaScript's `\s`
    whitespace class and `trim`, `toLowerCase`, `includes`, the
    `replace(/\s+/g, '_')` collapse, `replace('_', ' ')` and number-to-string
    conversion.  Only the ASCII range is modelled. */
module Text {

  /** JavaScript `\s` restricted to ASCII: tab, line feed, vertical tab,
      form feed, carriage return and space. */
  predicate IsSpace(c: char) {
    c == ' ' || c == '\t' || c == '\n' || c == '\U{0B}' || c == '\U{0C}' || c == '\r'
  }

  predicate NoSpace(s: string) {
    forall i :: 0 <= i < |s| ==> !IsSpace(s[i])
  }

  predicate AllSpace(s: string) {
    forall i :: 0 <= i < |s| ==> IsSpace(s[i])
  }

  predicate IsUpper(c: char) {
    'A' <= c <= 'Z'
  }

  /** `String.prototype.toLowerCase` on one ASCII character. */
  function LowerChar(c: char): (r: char)
    ensures !IsUpper(r)
    ensures IsUpper(c) ==> r as int == c as int + 32
    ensures !IsUpper(c) ==> r == c
    ensures IsSpace(r) <==> IsSpace(c)
  {
    if IsUpper(c) then (c as int + 32) as char else c
  }

  predicate NoUpper(s: string) {
    forall i :: 0 <= i < |s| ==> !IsUpper(s[i])
  }

  /** `String.prototype.toLowerCase`, character by character. */
  function Lower(s: string): (r: string)
    ensures |r| == |s|
    ensures NoUpper(r)
  {
    seq(|s|, i requires 0 <= i < |s| => LowerChar(s[i]))
  }

  lemma {:induction false} LowerIdempotent(s: string)
    ensures Lower(Lower(s)) == Lower(s)
  {
  }

  /** A string without upper-case letters is its own lower-case form. */
  lemma {:induction false} LowerNoUpper(s: string)
    requires NoUpper(s)
    ensures Lower(s) == s
  {
  }

  lemma {:induction false} LowerKeepsSpaces(s: string)
    ensures NoSpace(Lower(s)) <==> NoSpace(s)
  {
    assert forall i :: 0 <= i < |s| ==> (IsSpace(Lower(s)[i]) <==> IsSpace(s[i]));
  }

  /** A suffix of a string without upper-case letters has none either. */
  lemma {:induction false} NoUpperSuffix(s: string, k: nat)
    requires NoUpper(s) && k <= |s|
    ensures NoUpper(s[k..])
  {
    forall i | 0 <= i < |s| - k ensures !IsUpper(s[k..][i]) {
      assert s[k..][i] == s[k + i];
    }
  }

  /** Prefixing a character that is not upper-case keeps `NoUpper`. */
  lemma {:induction false} NoUpperCons(c: char, s: string)
    requires !IsUpper(c) && NoUpper(s)
    ensures NoUpper([c] + s)
  {
    forall i | 0 <= i < |s| + 1 ensures !IsUpper(([c] + s)[i]) {
      if i > 0 {
        assert ([c] + s)[i] == s[i - 1];
      }
    }
  }

  // ---------------------------------------------------------------------
  // includes

  predicate StartsWith(s: string, p: string) {
    |p| <= |s| && s[..|p|] == p
  }

  /** `s.includes(t)`: `t` occurs in `s` at some offset (always true for
      the empty `t`). */
  predicate Contains(s: string, t: string)
    decreases |s|
  {
    StartsWith(s, t) || (|s| > 0 && Contains(s[1..], t))
  }

  /** Independent reading of `includes`: some window of `s` equals `t`. */
  ghost predicate OccursAt(s: string, t: string, i: int) {
    0 <= i && i + |t| <= |s| && s[i..i + |t|] == t
  }

  lemma {:induction false} OccursContains(s: string, t: string, i: int)
    requires OccursAt(s, t, i)
    ensures Contains(s, t)
    decreases i
  {
    if i == 0 {
      assert StartsWith(s, t);
    } else {
      assert s[1..][i - 1..i - 1 + |t|] == s[i..i + |t|];
      OccursContains(s[1..], t, i - 1);
    }
  }

  lemma {:induction false} ContainsIffOccurs(s: string, t: string)
    ensures Contains(s, t) <==> exists i :: OccursAt(s, t, i)
    decreases |s|
  {
    if StartsWith(s, t) {
      assert OccursAt(s, t, 0);
    } else if Contains(s, t) {
      ContainsIffOccurs(s[1..], t);
      var j :| OccursAt(s[1..], t, j);
      assert s[1..][j..j + |t|] == s[j + 1..j + 1 + |t|];
      assert OccursAt(s, t, j + 1);
    }
    forall i | OccursAt(s, t, i)
      ensures Contains(s, t)
    {
      OccursContains(s, t, i);
    }
  }

  lemma {:induction false} ContainsEmpty(s: string)
    ensures Contains(s, "")
  {
    assert StartsWith(s, "");
  }

  // ---------------------------------------------------------------------
  // Whitespace runs and trim

  /** Drops the leading whitespace of `s` (`trimStart`). */
  function DropSpaces(s: string): (r: string)
    ensures |r| <= |s| && r == s[|s| - |r|..]
    ensures AllSpace(s[..|s| - |r|])
    ensures |r| == 0 || !IsSpace(r[0])
  {
    if |s| > 0 && IsSpace(s[0]) then DropSpaces(s[1..]) else s
  }

  /** Drops the trailing whitespace of `s` (`trimEnd`). */
  function DropTrailingSpaces(s: string): (r: string)
    ensures |r| <= |s| && r == s[..|r|]
    ensures AllSpace(s[|r|..])
    ensures |r| == 0 || !IsSpace(r[|r| - 1])
  {
    if |s| > 0 && IsSpace(s[|s| - 1]) then DropTrailingSpaces(s[..|s| - 1]) else s
  }

  /** `String.prototype.trim`. */
  function Trim(s: string): (r: string)
  {
    DropTrailingSpaces(DropSpaces(s))
  }

  /** What `trim` keeps neither starts nor ends with whitespace. */
  lemma {:induction false} TrimEnds(s: string)
    ensures |Trim(s)| == 0 || (!IsSpace(Trim(s)[0]) && !IsSpace(Trim(s)[|Trim(s)| - 1]))
  {
    var d := DropSpaces(s);
    var t := DropTrailingSpaces(d);
    assert |t| == 0 || t[0] == d[0];
  }

  /** `trim` removes exactly a whitespace prefix and a whitespace suffix. */
  lemma {:induction false} TrimSlice(s: string)
    ensures exists i, j :: 0 <= i <= j <= |s| && Trim(s) == s[i..j]
                           && AllSpace(s[..i]) && AllSpace(s[j..])
  {
    var d := DropSpaces(s);
    var t := DropTrailingSpaces(d);
    var i := |s| - |d|;
    var j := i + |t|;
    assert t == s[i..j] by {
      assert d == s[i..];
      assert t == d[..|t|];
    }
    assert AllSpace(s[j..]) by {
      assert d == s[i..];
      assert s[j..] == d[|t|..];
    }
    assert AllSpace(s[..i]);
  }

  /** A string is blank after `trim` exactly when it is all whitespace. */
  lemma {:induction false} TrimEmptyIffAllSpace(s: string)
    ensures Trim(s) == "" <==> AllSpace(s)
  {
    if !AllSpace(s) {
      NotAllSpaceKeeps(s);
      DropTrailingKeeps(DropSpaces(s));
    } else {
      AllSpaceDrops(s);
    }
  }

  lemma {:induction false} AllSpaceDrops(s: string)
    requires AllSpace(s)
    ensures DropSpaces(s) == ""
    decreases |s|
  {
    if |s| > 0 {
      assert AllSpace(s[1..]) by {
        forall k | 0 <= k < |s[1..]| ensures IsSpace(s[1..][k]) {
          assert s[1..][k] == s[k + 1];
        }
      }
      AllSpaceDrops(s[1..]);
    }
  }

  /** A string with some non-space character keeps it past `trimStart`. */
  lemma {:induction false} NotAllSpaceKeeps(s: string)
    requires !AllSpace(s)
    ensures |DropSpaces(s)| > 0
    decreases |s|
  {
    if IsSpace(s[0]) {
      var k :| 0 <= k < |s| && !IsSpace(s[k]);
      assert s[1..][k - 1] == s[k];
      NotAllSpaceKeeps(s[1..]);
    }
  }

  /** A string that starts with a non-space keeps it past `trimEnd`. */
  lemma {:induction false} DropTrailingKeeps(s: string)
    requires |s| > 0 && !IsSpace(s[0])
    ensures |DropTrailingSpaces(s)| > 0
    decreases |s|
  {
    if IsSpace(s[|s| - 1]) {
      assert s[..|s| - 1][0] == s[0];
      DropTrailingKeeps(s[..|s| - 1]);
    }
  }

  lemma {:induction false} TrimIdempotent(s: string)
    ensures Trim(Trim(s)) == Trim(s)
  {
    var t := Trim(s);
    TrimEnds(s);
    assert DropSpaces(t) == t;
    assert DropTrailingSpaces(t) == t;
  }

  /** `replace(/\s+/g, '_')`: every maximal whitespace run becomes one `_`. */
  function CollapseSpaces(s: string): (r: string)
    ensures NoSpace(r)
    ensures |r| <= |s|
    decreases |s|
  {
    if |s| == 0 then ""
    else if IsSpace(s[0]) then "_" + CollapseSpaces(DropSpaces(s[1..]))
    else [s[0]] + CollapseSpaces(s[1..])
  }

  /** Collapsing a string that has no whitespace changes nothing. */
  lemma {:induction false} CollapseNoSpace(s: string)
    requires NoSpace(s)
    ensures CollapseSpaces(s) == s
    decreases |s|
  {
    if |s| > 0 {
      CollapseNoSpace(s[1..]);
    }
  }

  /** The collapse is idempotent: its output is a fixed point. */
  lemma {:induction false} CollapseIdempotent(s: string)
    ensures CollapseSpaces(CollapseSpaces(s)) == CollapseSpaces(s)
  {
    CollapseNoSpace(CollapseSpaces(s));
  }

  lemma {:induction false} DropSpacesAppend(a: string, b: string)
    requires !AllSpace(a)
    ensures DropSpaces(a + b) == DropSpaces(a) + b
    decreases |a|
  {
    if IsSpace(a[0]) {
      assert (a + b)[1..] == a[1..] + b;
      assert !AllSpace(a[1..]) by {
        var k :| 0 <= k < |a| && !IsSpace(a[k]);
        assert a[1..][k - 1] == a[k];
      }
      DropSpacesAppend(a[1..], b);
    }
  }

  lemma {:induction false} DropSpacesOverRun(w: string, y: string)
    requires AllSpace(w)
    requires |y| == 0 || !IsSpace(y[0])
    ensures DropSpaces(w + y) == y
    decreases |w|
  {
    if |w| > 0 {
      assert (w + y)[1..] == w[1..] + y;
      DropSpacesOverRun(w[1..], y);
    } else {
      assert w + y == y;
    }
  }

  /** One unfolding step of the collapse on a string with a known head. */
  lemma {:induction false} CollapseCons(c: char, s: string)
    ensures CollapseSpaces([c] + s)
            == if IsSpace(c) then "_" + CollapseSpaces(DropSpaces(s)) else [c] + CollapseSpaces(s)
  {
    assert ([c] + s)[0] == c && ([c] + s)[1..] == s;
  }

  lemma {:induction false} ConcatAssoc(a: string, b: string, c: string)
    ensures a + (b + c) == (a + b) + c
  {
  }

  /** The collapse treats one maximal whitespace run `w`, sitting between a
      part `x` that does not end in whitespace and a part `y` that does not
      start with it, as exactly one `_`. */
  lemma {:induction false} CollapseRun(x: string, w: string, y: string)
    requires |w| > 0 && AllSpace(w)
    requires |x| == 0 || !IsSpace(x[|x| - 1])
    requires |y| == 0 || !IsSpace(y[0])
    ensures CollapseSpaces(x + w + y) == CollapseSpaces(x) + "_" + CollapseSpaces(y)
    decreases |x|, 1
  {
    if |x| == 0 {
      CollapseRunAtStart(w, y);
      assert x + w + y == w + y;
    } else if !IsSpace(x[0]) {
      CollapseRunAfterWord(x, w, y);
    } else {
      CollapseRunAfterSpace(x, w, y);
    }
  }

  /** The case of `CollapseRun` where `x` is empty. */
  lemma {:induction false} CollapseRunAtStart(w: string, y: string)
    requires |w| > 0 && AllSpace(w)
    requires |y| == 0 || !IsSpace(y[0])
    ensures CollapseSpaces(w + y) == "_" + CollapseSpaces(y)
  {
    assert w + y == [w[0]] + (w[1..] + y);
    CollapseCons(w[0], w[1..] + y);
    DropSpacesOverRun(w[1..], y);
  }

  /** The case of `CollapseRun` where `x` starts with a non-space. */
  lemma {:induction false} CollapseRunAfterWord(x: string, w: string, y: string)
    requires |w| > 0 && AllSpace(w)
    requires |x| > 0 && !IsSpace(x[0]) && !IsSpace(x[|x| - 1])
    requires |y| == 0 || !IsSpace(y[0])
    ensures CollapseSpaces(x + w + y) == CollapseSpaces(x) + "_" + CollapseSpaces(y)
    decreases |x|, 0
  {
    var tail := x[1..];
    var a, b := CollapseSpaces(tail), CollapseSpaces(y);
    assert CollapseSpaces(x) == [x[0]] + a by {
      assert x == [x[0]] + tail;
      CollapseCons(x[0], tail);
    }
    assert CollapseSpaces(x + w + y) == [x[0]] + CollapseSpaces(tail + w + y) by {
      assert x + w + y == [x[0]] + (tail + w + y);
      CollapseCons(x[0], tail + w + y);
    }
    assert CollapseSpaces(tail + w + y) == a + "_" + b by {
      CollapseRun(tail, w, y);
    }
    ConcatAssoc([x[0]], a + "_", b);
    ConcatAssoc([x[0]], a, "_");
  }

  /** Leading whitespace of `x` collapses to one `_` before the rest of `x`
      followed by `z`, when `x` does not end in whitespace. */
  lemma {:induction false} CollapseSkipLead(x: string, z: string)
    requires |x| > 0 && IsSpace(x[0]) && !IsSpace(x[|x| - 1])
    ensures CollapseSpaces(x + z) == "_" + CollapseSpaces(DropSpaces(x[1..]) + z)
  {
    var tail := x[1..];
    assert x + z == [x[0]] + (tail + z);
    CollapseCons(x[0], tail + z);
    assert !AllSpace(tail) by {
      assert tail[|x| - 2] == x[|x| - 1];
    }
    DropSpacesAppend(tail, z);
  }

  /** The case of `CollapseRun` where `x` starts with whitespace. */
  lemma {:induction false} CollapseRunAfterSpace(x: string, w: string, y: string)
    requires |w| > 0 && AllSpace(w)
    requires |x| > 0 && IsSpace(x[0]) && !IsSpace(x[|x| - 1])
    requires |y| == 0 || !IsSpace(y[0])
    ensures CollapseSpaces(x + w + y) == CollapseSpaces(x) + "_" + CollapseSpaces(y)
    decreases |x|, 0
  {
    var x' := DropSpaces(x[1..]);
    var a, b := CollapseSpaces(x'), CollapseSpaces(y);
    CollapseSkipLead(x, "");
    assert x + "" == x && x' + "" == x';
    CollapseSkipLead(x, w + y);
    ConcatAssoc(x, w, y);
    ConcatAssoc(x', w, y);
    LastSurvivesDrop(x[1..], x[|x| - 1]);
    CollapseRun(x', w, y);
    ConcatAssoc("_", a + "_", b);
    ConcatAssoc("_", a, "_");
  }

  /** Dropping leading whitespace keeps a non-space last character. */
  lemma {:induction false} LastSurvivesDrop(s: string, c: char)
    requires |s| > 0 && s[|s| - 1] == c && !IsSpace(c)
    ensures |DropSpaces(s)| > 0 && DropSpaces(s)[|DropSpaces(s)| - 1] == c
    decreases |s|
  {
    if IsSpace(s[0]) {
      assert s[1..][|s| - 2] == c;
      LastSurvivesDrop(s[1..], c);
    }
  }

  // ---------------------------------------------------------------------
  // replace('_', ' ') with a string pattern: first occurrence only

  /** The first position holding `a`, or `|s|` when there is none (where
      JavaScript's `indexOf` would give -1); the search `replace` makes. */
  function IndexOf(s: string, a: char): (k: nat)
    ensures k <= |s|
    ensures k < |s| ==> s[k] == a
    ensures a !in s[..k]
    ensures k == |s| <==> a !in s
  {
    if |s| == 0 then 0
    else if s[0] == a then 0
    else
      var k := IndexOf(s[1..], a);
      assert s[..k + 1] == [s[0]] + s[1..][..k];
      k + 1
  }

  /** `String.prototype.replace` with a one-character string pattern: only
      the first occurrence is replaced. */
  function ReplaceFirst(s: string, a: char, b: char): (r: string)
    ensures |r| == |s|
    ensures a !in s ==> r == s
    ensures a in s ==> exists k :: 0 <= k < |s| && s[k] == a && a !in s[..k]
                                   && r == s[..k] + [b] + s[k + 1..]
  {
    var k := IndexOf(s, a);
    if k < |s| then s[..k] + [b] + s[k + 1..] else s
  }

  // ---------------------------------------------------------------------
  // Number.prototype.toString for non-negative integers

  function DigitChar(d: nat): (c: char)
    requires d < 10
    ensures '0' <= c <= '9'
  {
    ('0' as int + d) as char
  }

  predicate IsDigits(s: string) {
    forall i :: 0 <= i < |s| ==> '0' <= s[i] <= '9'
  }

  /** Decimal rendering of `n`, without leading zeros. */
  function NatToString(n: nat): (r: string)
    ensures |r| > 0 && IsDigits(r)
    ensures |r| > 1 ==> r[0] != '0'
  {
    if n < 10 then [DigitChar(n)] else NatToString(n / 10) + [DigitChar(n % 10)]
  }

  /** Value of a digit string (the inverse reading). */
  function DigitsValue(s: string): nat
    requires IsDigits(s)
  {
    if |s| == 0 then 0 else 10 * DigitsValue(s[..|s| - 1]) + (s[|s| - 1] as int - '0' as int)
  }

  lemma {:induction false} NatToStringRoundTrip(n: nat)
    ensures DigitsValue(NatToString(n)) == n
  {
    if n >= 10 {
      NatToStringRoundTrip(n / 10);
      var r := NatToString(n);
      assert r[..|r| - 1] == NatToString(n / 10);
    }
  }
}
