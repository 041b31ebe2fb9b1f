/** ASCII approximations of the Python string operations the lead tool relies on:
    str.isspace, str.isalnum, str.lower, str.strip, the `in` substring test,
    "\n".join and slicing. */
module Text {

  /** Python's str.isspace restricted to ASCII: tab, newline, vertical tab,
      form feed, carriage return, the four separators 0x1C-0x1F, and space. */
  predicate IsSpace(c: char) {
    (9 <= c as int <= 13) || (28 <= c as int <= 32)
  }

  /** Python's str.isalnum restricted to ASCII letters and digits. */
  predicate IsAlnum(c: char) {
    ('a' <= c <= 'z') || ('A' <= c <= 'Z') || ('0' <= c <= '9')
  }

  predicate IsUpper(c: char) {
    'A' <= c <= 'Z'
  }

  /** Python's str.lower on one ASCII character. */
  function LowerChar(c: char): (r: char)
    ensures !IsUpper(r)
    ensures IsUpper(c) ==> r as int == c as int + 32
    ensures !IsUpper(c) ==> r == c
  {
    if IsUpper(c) then (c as int + 32) as char else c
  }

  /** Python's str.lower, character by character. */
  function Lower(s: string): (r: string)
    ensures |r| == |s|
    ensures forall i :: 0 <= i < |s| ==> r[i] == LowerChar(s[i])
  {
    seq(|s|, i requires 0 <= i < |s| => LowerChar(s[i]))
  }

  lemma LowerAppend(a: string, b: string)
    ensures Lower(a + b) == Lower(a) + Lower(b)
  {
  }

  /** A string without upper-case letters is its own lower-case form. */
  lemma LowerOfLower(s: string)
    requires forall i :: 0 <= i < |s| ==> !IsUpper(s[i])
    ensures Lower(s) == s
  {
  }

  /** A lower-case letter appears in `Lower(s)` only if it or its upper-case
      form appears in `s`. */
  lemma LowerLacks(s: string, c: char)
    requires 'a' <= c <= 'z' && c !in s && (c as int - 32) as char !in s
    ensures c !in Lower(s)
  {
  }

  /** Drops leading whitespace (Python's str.lstrip). */
  function TrimStart(s: string): (r: string)
    ensures |r| <= |s| && r == s[|s| - |r|..]
    ensures forall i :: 0 <= i < |s| - |r| ==> IsSpace(s[i])
    ensures r == [] || !IsSpace(r[0])
  {
    if s != [] && IsSpace(s[0]) then
      var t := s[1..];
      var r := TrimStart(t);
      assert t[|t| - |r|..] == s[|s| - |r|..];
      assert forall i :: 1 <= i < |s| - |r| ==> s[i] == t[i - 1];
      r
    else s
  }

  /** Drops trailing whitespace (Python's str.rstrip). */
  function TrimEnd(s: string): (r: string)
    ensures |r| <= |s| && r == s[..|r|]
    ensures forall i :: |r| <= i < |s| ==> IsSpace(s[i])
    ensures r == [] || !IsSpace(r[|r| - 1])
  {
    if s != [] && IsSpace(s[|s| - 1]) then TrimEnd(s[..|s| - 1]) else s
  }

  /** `w` occurs in `s` starting at index `i`. */
  predicate MatchesAt(s: string, w: string, i: int) {
    0 <= i <= |s| - |w| && s[i..i + |w|] == w
  }

  /** `r` is `s` with only whitespace removed before index `i` and after
      `r` ends. */
  ghost predicate StrippedAt(s: string, r: string, i: int) {
    && MatchesAt(s, r, i)
    && (forall j :: 0 <= j < i ==> IsSpace(s[j]))
    && (forall j :: i + |r| <= j < |s| ==> IsSpace(s[j]))
  }

  /** Python's str.strip: the piece of `s` that neither starts nor ends with
      whitespace, obtained by removing only whitespace. */
  function Trim(s: string): (r: string)
    ensures r == [] || (!IsSpace(r[0]) && !IsSpace(r[|r| - 1]))
    ensures exists i :: StrippedAt(s, r, i)
  {
    TrimStripped(s);
    TrimEnd(TrimStart(s))
  }

  lemma TrimStripped(s: string)
    ensures StrippedAt(s, TrimEnd(TrimStart(s)), |s| - |TrimStart(s)|)
  {
    var t := TrimStart(s);
    StrippedFromParts(s, t, TrimEnd(t));
  }

  /** Removing leading whitespace and then trailing whitespace strips `s`. */
  lemma StrippedFromParts(s: string, t: string, r: string)
    requires |t| <= |s| && t == s[|s| - |t|..]
    requires forall i :: 0 <= i < |s| - |t| ==> IsSpace(s[i])
    requires |r| <= |t| && r == t[..|r|]
    requires forall i :: |r| <= i < |t| ==> IsSpace(t[i])
    ensures StrippedAt(s, r, |s| - |t|)
  {
    var i := |s| - |t|;
    assert s[i..i + |r|] == r;
    forall j | i + |r| <= j < |s| ensures IsSpace(s[j]) {
      assert s[j] == t[j - i];
    }
  }

  /** Every character of `Trim(s)` occurs in `s`. */
  lemma TrimKeepsChars(s: string, p: char -> bool)
    requires forall c :: c in s ==> p(c)
    ensures forall c :: c in Trim(s) ==> p(c)
  {
    var r := Trim(s);
    var i :| StrippedAt(s, r, i);
    forall c | c in r ensures p(c) {
      var k :| 0 <= k < |r| && r[k] == c;
      assert s[i + k] == c;
    }
  }

  /** Python's `w in s` for strings, scanning from the left. */
  function Contains(s: string, w: string): bool
    decreases |s|
  {
    if |s| < |w| then false
    else if s[..|w|] == w then true
    else Contains(s[1..], w)
  }

  /** Reference definition of "w is a substring of s". */
  ghost predicate Occurs(s: string, w: string) {
    exists i :: MatchesAt(s, w, i)
  }

  lemma {:induction false} ContainsIffOccurs(s: string, w: string)
    ensures Contains(s, w) <==> Occurs(s, w)
    decreases |s|
  {
    if |s| < |w| {
    } else if s[..|w|] == w {
      assert MatchesAt(s, w, 0);
    } else {
      ContainsIffOccurs(s[1..], w);
      if Contains(s, w) {
        var i :| MatchesAt(s[1..], w, i);
        assert s[i + 1..i + 1 + |w|] == w;
        assert MatchesAt(s, w, i + 1);
      }
      if Occurs(s, w) {
        var i :| MatchesAt(s, w, i);
        assert i != 0;
        assert s[1..][i - 1..i - 1 + |w|] == w;
        assert MatchesAt(s[1..], w, i - 1);
      }
    }
  }

  /** `w` is found in any string that has it as an infix. */
  lemma ContainsInfix(a: string, w: string, b: string)
    ensures Contains(a + w + b, w)
  {
    var s := a + w + b;
    assert s[|a|..|a| + |w|] == w;
    assert MatchesAt(s, w, |a|);
    ContainsIffOccurs(s, w);
  }

  /** Extending a string on either side keeps what it contains. */
  lemma ContainsWithin(a: string, s: string, b: string, w: string)
    requires Contains(s, w)
    ensures Contains(a + s + b, w)
  {
    ContainsIffOccurs(s, w);
    var i :| MatchesAt(s, w, i);
    var t := a + s + b;
    assert t[|a| + i..|a| + i + |w|] == w;
    assert MatchesAt(t, w, |a| + i);
    ContainsIffOccurs(t, w);
  }

  /** A string containing `w + x` contains `w`. */
  lemma ContainsStart(s: string, w: string, x: string)
    requires Contains(s, w + x)
    ensures Contains(s, w)
  {
    ContainsIffOccurs(s, w + x);
    var i :| MatchesAt(s, w + x, i);
    assert s[i..i + |w|] == (w + x)[..|w|] == w;
    assert MatchesAt(s, w, i);
    ContainsIffOccurs(s, w);
  }

  /** Python's "\n".join(lines). */
  function JoinLines(lines: seq<string>): string
  {
    if |lines| == 0 then ""
    else if |lines| == 1 then lines[0]
    else lines[0] + "\n" + JoinLines(lines[1..])
  }

  /** Every line given to "\n".join is found in its result. */
  lemma {:induction false} JoinedLineFound(lines: seq<string>, k: nat)
    requires k < |lines|
    ensures Contains(JoinLines(lines), lines[k])
  {
    if |lines| == 1 {
      ContainsInfix("", lines[0], "");
      assert "" + lines[0] + "" == lines[0];
    } else if k == 0 {
      ContainsInfix("", lines[0], "\n" + JoinLines(lines[1..]));
      assert "" + lines[0] + ("\n" + JoinLines(lines[1..])) == JoinLines(lines);
    } else {
      JoinedLineFound(lines[1..], k - 1);
      ContainsWithin(lines[0] + "\n", JoinLines(lines[1..]), "", lines[k]);
      assert lines[0] + "\n" + JoinLines(lines[1..]) + "" == JoinLines(lines);
    }
  }

  /** Concatenation of a sequence of strings. */
  function Concat(parts: seq<string>): string
  {
    if parts == [] then "" else parts[0] + Concat(parts[1..])
  }

  lemma {:induction false} ConcatSplit(parts: seq<string>, k: nat)
    requires k < |parts|
    ensures Concat(parts) == Concat(parts[..k]) + parts[k] + Concat(parts[k + 1..])
  {
    if k > 0 {
      ConcatSplit(parts[1..], k - 1);
      assert parts[1..][..k - 1] == parts[1..k];
      assert parts[1..][k..] == parts[k + 1..];
      assert parts[..k] == [parts[0]] + parts[1..k];
      assert Concat(parts[..k]) == parts[0] + Concat(parts[1..k]);
    }
  }

  /** Every part of a concatenation is found in it. */
  lemma ConcatPartFound(parts: seq<string>, k: nat)
    requires k < |parts|
    ensures Contains(Concat(parts), parts[k])
  {
    ConcatSplit(parts, k);
    ContainsInfix(Concat(parts[..k]), parts[k], Concat(parts[k + 1..]));
  }

  /** Keeps the characters satisfying `keep`, in order (a Python filtering
      comprehension joined back into a string). */
  function Filter(s: string, keep: char -> bool): (r: string)
    ensures |r| <= |s|
    ensures forall c :: c in r ==> c in s && keep(c)
    ensures forall c :: c in s && keep(c) ==> c in r
  {
    if s == [] then []
    else (if keep(s[0]) then [s[0]] else []) + Filter(s[1..], keep)
  }

  /** Filtering keeps a string whose every character passes unchanged. */
  lemma {:induction false} FilterKeepsAll(s: string, keep: char -> bool)
    requires forall i :: 0 <= i < |s| ==> keep(s[i])
    ensures Filter(s, keep) == s
  {
    if s != [] {
      FilterKeepsAll(s[1..], keep);
    }
  }

  /** Filtering works piece by piece: the kept characters of a
      concatenation are those of each part, in order. With `Filter([c], keep)`
      this fixes the order and the multiplicity of what is kept. */
  lemma {:induction false} FilterAppend(a: string, b: string, keep: char -> bool)
    ensures Filter(a + b, keep) == Filter(a, keep) + Filter(b, keep)
    decreases |a|
  {
    if a == [] {
      assert a + b == b;
    } else {
      assert (a + b)[0] == a[0];
      assert (a + b)[1..] == a[1..] + b;
      FilterAppend(a[1..], b, keep);
    }
  }

  /** Stripping a string with no whitespace at either end leaves it as is. */
  lemma TrimKeepsUnpadded(s: string)
    requires s == [] || (!IsSpace(s[0]) && !IsSpace(s[|s| - 1]))
    ensures Trim(s) == s
  {
  }

  /** Surrounding whitespace is removed and nothing else. */
  lemma TrimPadded(a: string, s: string, b: string)
    requires forall i :: 0 <= i < |a| ==> IsSpace(a[i])
    requires forall i :: 0 <= i < |b| ==> IsSpace(b[i])
    requires s != [] && !IsSpace(s[0]) && !IsSpace(s[|s| - 1])
    ensures Trim(a + s + b) == s
  {
    TrimStartPadded(a, s + b);
    assert a + s + b == a + (s + b);
    TrimEndPadded(s, b);
  }

  lemma {:induction false} TrimStartPadded(a: string, s: string)
    requires forall i :: 0 <= i < |a| ==> IsSpace(a[i])
    requires s != [] && !IsSpace(s[0])
    ensures TrimStart(a + s) == s
    decreases |a|
  {
    var t := a + s;
    if a != [] {
      assert t[0] == a[0] && IsSpace(t[0]);
      assert t[1..] == a[1..] + s;
      TrimStartPadded(a[1..], s);
      assert TrimStart(t) == TrimStart(t[1..]);
    } else {
      assert t == s;
    }
  }

  lemma {:induction false} TrimEndPadded(s: string, b: string)
    requires forall i :: 0 <= i < |b| ==> IsSpace(b[i])
    requires s != [] && !IsSpace(s[|s| - 1])
    ensures TrimEnd(s + b) == s
    decreases |b|
  {
    if b != [] {
      var n := |b| - 1;
      assert (s + b)[..|s + b| - 1] == s + b[..n];
      TrimEndPadded(s, b[..n]);
    } else {
      assert s + b == s;
    }
  }

  /** The three parts of a concatenation are its slices at their lengths. */
  lemma Split3(x: string, y: string, z: string)
    ensures var r := x + y + z;
      && |r| == |x| + |y| + |z|
      && r[..|x|] == x && r[|x|..|x| + |y|] == y && r[|x| + |y|..] == z
  {
    var r := x + y + z;
    assert r[..|x|] == x;
    assert r[|x|..|x| + |y|] == y;
    assert r[|x| + |y|..] == z;
  }

  /** Python's s.replace(" ", "_"). */
  function SpacesToUnderscores(s: string): (r: string)
    ensures |r| == |s| && ' ' !in r
    ensures forall i :: 0 <= i < |s| && s[i] != ' ' ==> r[i] == s[i]
    ensures forall i :: 0 <= i < |s| && s[i] == ' ' ==> r[i] == '_'
  {
    seq(|s|, i requires 0 <= i < |s| => if s[i] == ' ' then '_' else s[i])
  }

  /** Python's s[:n] for a non-negative n. */
  function Prefix(s: string, n: nat): (r: string)
    ensures |r| == if |s| < n then |s| else n
    ensures r <= s
  {
    if |s| < n then s else s[..n]
  }

  predicate AllDigits(s: string) {
    forall i :: 0 <= i < |s| ==> '0' <= s[i] <= '9'
  }

  /** Decimal digits of a natural number, as Python's str(int) writes it. */
  function NatToDecimal(n: nat): (r: string)
    ensures r != [] && AllDigits(r)
    decreases n
  {
    var d := ['0' + (n % 10) as char];
    if n < 10 then d else NatToDecimal(n / 10) + d
  }

  /** Value of a string of ASCII digits, as Python's float() reads it. */
  function DigitsValue(s: string): nat
    requires AllDigits(s)
  {
    if s == [] then 0
    else
      10 * DigitsValue(s[..|s| - 1]) + (s[|s| - 1] as int - '0' as int)
  }

  lemma {:induction false} DigitsRoundTrip(n: nat)
    ensures DigitsValue(NatToDecimal(n)) == n
    decreases n
  {
    var d := ['0' + (n % 10) as char];
    if n >= 10 {
      var r := NatToDecimal(n / 10) + d;
      assert r[..|r| - 1] == NatToDecimal(n / 10);
      DigitsRoundTrip(n / 10);
    }
  }
}
