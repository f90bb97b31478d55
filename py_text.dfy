/**
 * The few Python string operations the backend relies on: `str.upper`,
 * `str.strip`, `str.split(sep, maxsplit)` and the `repr` of a float.
 */
module PyText {
  import opened Wrappers
  import opened DecimalText

  // ---------------------------------------------------------------- upper

  predicate IsAsciiLower(c: char) {
    'a' <= c <= 'z'
  }

  predicate IsAsciiUpper(c: char) {
    'A' <= c <= 'Z'
  }

  /** U+0131 LATIN SMALL LETTER DOTLESS I and U+017F LATIN SMALL LETTER LONG S: the only single
      non-ASCII characters whose `str.upper()` is a single ASCII letter. */
  const DOTLESS_I: char := 0x131 as char
  const LONG_S: char := 0x17F as char

  function UpperChar(c: char): (u: char)
    ensures IsAsciiLower(c) ==> IsAsciiUpper(u) && u as int == c as int - 32
    ensures c == DOTLESS_I ==> u == 'I'
    ensures c == LONG_S ==> u == 'S'
    ensures !IsAsciiLower(c) && c != DOTLESS_I && c != LONG_S ==> u == c
  {
    if IsAsciiLower(c) then (c as int - 32) as char
    else if c == DOTLESS_I then 'I'
    else if c == LONG_S then 'S'
    else c
  }

  function LowerChar(c: char): (l: char)
    ensures IsAsciiUpper(c) ==> IsAsciiLower(l) && UpperChar(l) == c
    ensures !IsAsciiUpper(c) ==> l == c
  {
    if IsAsciiUpper(c) then (c as int + 32) as char else c
  }

  /**
   * `s.upper()`, exact on every character whose upper case is a single ASCII letter. Any
   * other character is kept, so the result is one of the words BUY, SELL, MARKET and LIMIT
   * exactly when Python's is (a character such as "ß", whose upper case is two letters, cannot
   * produce those words, but could produce others such as "SS").
   */
  function Upper(s: string): (u: string)
    ensures |u| == |s|
    ensures forall i :: 0 <= i < |s| ==> u[i] == UpperChar(s[i])
  {
    seq(|s|, i requires 0 <= i < |s| => UpperChar(s[i]))
  }

  /** `c` is a spelling of the upper-case ASCII letter `w`: itself, its lower case, or the dotless i / long s. */
  predicate SpellsLetter(c: char, w: char) {
    c == w || c == LowerChar(w) || (w == 'I' && c == DOTLESS_I) || (w == 'S' && c == LONG_S)
  }

  /** `s` spells the upper-case word `w` letter by letter. */
  predicate MatchesIgnoringCase(s: string, w: string) {
    |s| == |w| && forall i :: 0 <= i < |s| ==> SpellsLetter(s[i], w[i])
  }

  lemma UpperCharIsLetter(c: char, w: char)
    requires IsAsciiUpper(w)
    ensures UpperChar(c) == w <==> SpellsLetter(c, w)
  {
  }

  /** Comparing `s.upper()` with an upper-case word is a case-insensitive comparison. */
  lemma UpperEqualsWord(s: string, w: string)
    requires forall i :: 0 <= i < |w| ==> IsAsciiUpper(w[i])
    ensures Upper(s) == w <==> MatchesIgnoringCase(s, w)
  {
    forall i | 0 <= i < |s| && i < |w| {
      UpperCharIsLetter(s[i], w[i]);
    }
    if MatchesIgnoringCase(s, w) {
      assert forall i :: 0 <= i < |s| ==> Upper(s)[i] == w[i];
    }
  }

  // ---------------------------------------------------------------- strip

  /** The characters `str.isspace` accepts, which `str.strip()` removes. */
  predicate IsSpace(c: char) {
    var u := c as int;
    || 0x09 <= u <= 0x0D || 0x1C <= u <= 0x20 || u == 0x85 || u == 0xA0 || u == 0x1680
    || 0x2000 <= u <= 0x200A || u == 0x2028 || u == 0x2029 || u == 0x202F || u == 0x205F || u == 0x3000
  }

  function StripLeft(s: string): (r: string)
    ensures |r| <= |s| && r == s[|s| - |r|..]
    ensures forall i :: 0 <= i < |s| - |r| ==> IsSpace(s[i])
    ensures r != [] ==> !IsSpace(r[0])
  {
    if s != [] && IsSpace(s[0]) then StripLeft(s[1..]) else s
  }

  function StripRight(s: string): (r: string)
    ensures |r| <= |s| && r == s[..|r|]
    ensures forall i :: |r| <= i < |s| ==> IsSpace(s[i])
    ensures r != [] ==> !IsSpace(r[|r| - 1])
  {
    if s != [] && IsSpace(s[|s| - 1]) then StripRight(s[..|s| - 1]) else s
  }

  /** `s.strip()`: `s` without its leading and trailing whitespace. */
  function Strip(s: string): (r: string)
    ensures |r| <= |s|
    ensures r != [] ==> !IsSpace(r[0]) && !IsSpace(r[|r| - 1])
    ensures exists i, j :: (0 <= i <= j <= |s| && r == s[i..j]
                            && (forall k :: 0 <= k < i ==> IsSpace(s[k])) && (forall k :: j <= k < |s| ==> IsSpace(s[k])))
  {
    var left := StripLeft(s);
    var r := StripRight(left);
    var i := |s| - |left|;
    assert r == s[i..i + |r|];
    assert forall k :: i + |r| <= k < |s| ==> s[k] == left[k - i];
    r
  }

  // ---------------------------------------------------------------- split

  predicate OccursAt(s: string, sep: string, i: int) {
    0 <= i && i + |sep| <= |s| && s[i..i + |sep|] == sep
  }

  predicate Contains(s: string, sep: string) {
    exists i :: 0 <= i <= |s| && OccursAt(s, sep, i)
  }

  function IndexFrom(s: string, sep: string, from: nat): (r: Option<nat>)
    requires from <= |s|
    ensures r.Some? ==> from <= r.value && OccursAt(s, sep, r.value)
    decreases |s| - from
  {
    if OccursAt(s, sep, from) then Some(from)
    else if from == |s| then None
    else IndexFrom(s, sep, from + 1)
  }

  /** `s.find(sep)`, with None for -1. */
  function IndexOf(s: string, sep: string): (r: Option<nat>)
    ensures r.Some? ==> OccursAt(s, sep, r.value)
  {
    IndexFrom(s, sep, 0)
  }

  lemma {:induction false} IndexFromLeftmost(s: string, sep: string, from: nat)
    requires from <= |s|
    ensures IndexFrom(s, sep, from).Some? ==> forall j :: from <= j < IndexFrom(s, sep, from).value ==> !OccursAt(s, sep, j)
    ensures IndexFrom(s, sep, from).None? ==> forall j :: from <= j <= |s| ==> !OccursAt(s, sep, j)
    decreases |s| - from
  {
    if !OccursAt(s, sep, from) && from < |s| {
      IndexFromLeftmost(s, sep, from + 1);
    }
  }

  /** `s.find(sep)` is the leftmost occurrence, and None means there is none. */
  lemma IndexOfLeftmost(s: string, sep: string)
    ensures IndexOf(s, sep).Some? ==> forall j :: 0 <= j < IndexOf(s, sep).value ==> !OccursAt(s, sep, j)
    ensures IndexOf(s, sep).None? <==> !Contains(s, sep)
  {
    IndexFromLeftmost(s, sep, 0);
  }

  /** `s.split(sep, maxsplit)`: cut at the leftmost `maxsplit` occurrences of `sep`. */
  function SplitN(s: string, sep: string, maxsplit: nat): (parts: seq<string>)
    requires |sep| > 0
    ensures 1 <= |parts| <= maxsplit + 1
    decreases maxsplit
  {
    if maxsplit == 0 then [s]
    else match IndexOf(s, sep)
      case None => [s]
      case Some(i) => [s[..i]] + SplitN(s[i + |sep|..], sep, maxsplit - 1)
  }

  /** `sep.join(parts)`. */
  function Join(parts: seq<string>, sep: string): string {
    if parts == [] then ""
    else if |parts| == 1 then parts[0]
    else parts[0] + sep + Join(parts[1..], sep)
  }

  lemma JoinCons(head: string, tail: seq<string>, sep: string)
    requires tail != []
    ensures Join([head] + tail, sep) == head + sep + Join(tail, sep)
  {
    assert ([head] + tail)[1..] == tail;
  }

  lemma CutAt(s: string, sep: string, i: nat)
    requires OccursAt(s, sep, i)
    ensures s == s[..i] + sep + s[i + |sep|..]
  {
    assert s == s[..i] + s[i..i + |sep|] + s[i + |sep|..];
  }

  /** No occurrence of `sep` lies wholly before the first one. */
  lemma PrefixBeforeFirstIsFree(s: string, sep: string, i: nat)
    requires |sep| > 0 && IndexOf(s, sep) == Some(i)
    ensures !Contains(s[..i], sep)
  {
    var head := s[..i];
    IndexOfLeftmost(s, sep);
    forall j | 0 <= j <= |head| && OccursAt(head, sep, j) ensures false {
      assert head[j..j + |sep|] == s[j..j + |sep|];
      assert OccursAt(s, sep, j);
    }
  }

  /**
   * The two shapes of `SplitN`: either it cuts at `i`, the leftmost occurrence, with nothing
   * of `sep` before it and `rest` after it, or it returns the whole string, which holds no
   * `sep` unless `maxsplit` is 0.
   */
  lemma SplitNCases(s: string, sep: string, maxsplit: nat) returns (cut: bool, i: nat, rest: string, m: nat)
    requires |sep| > 0
    ensures cut ==> maxsplit == m + 1 && OccursAt(s, sep, i) && rest == s[i + |sep|..]
    ensures cut ==> !Contains(s[..i], sep)
    ensures cut ==> SplitN(s, sep, maxsplit) == [s[..i]] + SplitN(rest, sep, m)
    ensures !cut ==> SplitN(s, sep, maxsplit) == [s] && (maxsplit > 0 ==> !Contains(s, sep))
  {
    cut, i, rest, m := false, 0, s, 0;
    match IndexOf(s, sep)
    case Some(j) =>
      if maxsplit > 0 {
        cut, i, rest, m := true, j, s[j + |sep|..], maxsplit - 1;
        SplitNStep(s, sep, maxsplit, j, m);
        PrefixBeforeFirstIsFree(s, sep, j);
      }
    case None =>
      IndexOfLeftmost(s, sep);
  }

  lemma SplitNStep(s: string, sep: string, maxsplit: nat, i: nat, m: nat)
    requires |sep| > 0 && maxsplit == m + 1 && IndexOf(s, sep) == Some(i)
    ensures i + |sep| <= |s|
    ensures SplitN(s, sep, maxsplit) == [s[..i]] + SplitN(s[i + |sep|..], sep, m)
  {
  }

  /** Gluing the first piece back in front of the rejoined remainder, at the occurrence `i`. */
  lemma JoinStep(s: string, sep: string, i: nat, parts: seq<string>, tail: seq<string>)
    requires OccursAt(s, sep, i) && parts == [s[..i]] + tail && tail != []
    requires Join(tail, sep) == s[i + |sep|..]
    ensures Join(parts, sep) == s
  {
    JoinCons(s[..i], tail, sep);
    CutAt(s, sep, i);
  }

  /** Joining the pieces of a split with the separator gives back the string. */
  lemma {:induction false} JoinSplitN(s: string, sep: string, maxsplit: nat)
    requires |sep| > 0
    ensures Join(SplitN(s, sep, maxsplit), sep) == s
    decreases maxsplit
  {
    var cut, i, rest, m := SplitNCases(s, sep, maxsplit);
    if cut {
      JoinSplitN(rest, sep, m);
      JoinStep(s, sep, i, SplitN(s, sep, maxsplit), SplitN(rest, sep, m));
    }
  }

  /** Every piece is free of `sep`, except the last one when there are more than `m` pieces. */
  predicate PiecesFree(parts: seq<string>, sep: string, m: nat) {
    if |parts| == 0 then true
    else if |parts| == 1 then m == 0 || !Contains(parts[0], sep)
    else !Contains(parts[0], sep) && PiecesFree(parts[1..], sep, if m == 0 then 0 else m - 1)
  }

  /** Every piece but the last is free of the separator, and so is the last when fewer than `maxsplit` cuts were made. */
  lemma {:induction false} SplitNPiecesFree(s: string, sep: string, maxsplit: nat)
    requires |sep| > 0
    ensures PiecesFree(SplitN(s, sep, maxsplit), sep, maxsplit)
    decreases maxsplit
  {
    var cut, i, rest, m := SplitNCases(s, sep, maxsplit);
    if cut {
      var tail := SplitN(rest, sep, m);
      SplitNPiecesFree(rest, sep, m);
      assert ([s[..i]] + tail)[1..] == tail;
    }
  }

  /** `s.find(sep, from)` finds `k` when `sep` occurs at `k` and nowhere in between. */
  lemma {:induction false} IndexFromFinds(s: string, sep: string, from: nat, k: nat)
    requires from <= k && OccursAt(s, sep, k)
    requires forall j :: from <= j < k ==> !OccursAt(s, sep, j)
    ensures IndexFrom(s, sep, from) == Some(k)
    decreases k - from
  {
    if from < k {
      IndexFromFinds(s, sep, from + 1, k);
    }
  }

  /**
   * Splitting `a + sep + r` cuts right after `a`, provided no occurrence of `sep` starts
   * inside `a`: none lies in `a` followed by all but the last character of `sep`.
   */
  lemma SplitNAfterField(a: string, sep: string, r: string, n: nat)
    requires |sep| > 0 && !Contains(a + sep[..|sep| - 1], sep)
    ensures SplitN(a + sep + r, sep, n + 1) == [a] + SplitN(r, sep, n)
  {
    var s := a + sep + r;
    var t := a + sep[..|sep| - 1];
    assert s[|a|..|a| + |sep|] == sep;
    forall j | 0 <= j < |a| ensures !OccursAt(s, sep, j) {
      if OccursAt(s, sep, j) {
        assert s[j..j + |sep|] == t[j..j + |sep|];
        assert OccursAt(t, sep, j);
      }
    }
    IndexFromFinds(s, sep, 0, |a|);
    SplitNStep(s, sep, n + 1, |a|, n);
    assert s[..|a|] == a;
    assert s[|a| + |sep|..] == r;
  }

  // ---------------------------------------------------------------- repr

  /** Decimal quantities and prices are held as integers counting units of 10^-SCALE_DIGITS. */
  const SCALE_DIGITS: nat := 8

  /** m and t with n == m * 10^t and m not a multiple of 10. */
  function TrailingZeros(n: nat): (r: (nat, nat))
    requires n > 0
    ensures r.0 > 0 && r.0 % 10 != 0 && n == r.0 * Pow10(r.1)
  {
    if n % 10 != 0 then (n, 0)
    else
      var (m, t) := TrailingZeros(n / 10);
      assert n == 10 * (m * Pow10(t)) == m * (10 * Pow10(t));
      (m, t + 1)
  }

  function Zeros(k: nat): (s: string)
    ensures |s| == k && forall i :: 0 <= i < k ==> s[i] == '0'
  {
    if k == 0 then "" else Zeros(k - 1) + "0"
  }

  /** The two or more digit exponent of `repr` in scientific notation. */
  function ExponentText(e: int): string {
    var mag: nat := if e < 0 then -e else e;
    (if e < 0 then "-" else "+") + (if mag < 10 then "0" else "") + Digits(mag)
  }

  /**
   * `repr(x)` of the float x = n / 10^SCALE_DIGITS, n > 0: its significant digits
   * D and decimal point position p (x = 0.D * 10^p); fixed notation when
   * -4 < p <= 16, scientific notation otherwise.
   */
  function PositiveRepr(n: nat): string
    requires n > 0
  {
    var (m, t) := TrailingZeros(n);
    var d := Digits(m);
    var p := |d| + t - SCALE_DIGITS;
    if -4 < p <= 16 then
      if p <= 0 then "0." + Zeros(-p) + d
      else if p >= |d| then d + Zeros(p - |d|) + ".0"
      else d[..p] + "." + d[p..]
    else
      [d[0]] + (if |d| > 1 then "." + d[1..] else "") + "e" + ExponentText(p - 1)
  }

  /** `repr` (and `str`) of the float n / 10^SCALE_DIGITS, as an f-string prints it. */
  function FloatRepr(n: int): string {
    if n == 0 then "0.0"
    else if n < 0 then "-" + PositiveRepr(-n)
    else PositiveRepr(n)
  }
}
