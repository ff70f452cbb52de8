/**
 * The few JavaScript string operations the bot's decisions rest on:
 * `Number.prototype.toString()` on a non-negative integer, the `||`
 * fallback on a possibly missing string, and `s.split(sep)[1]`.
 */
module Text {

  datatype Option<+T> = None | Some(value: T)

  predicate IsDigit(c: char) {
    '0' <= c <= '9'
  }

  predicate IsDigits(s: string) {
    forall i :: 0 <= i < |s| ==> IsDigit(s[i])
  }

  function DigitChar(d: nat): (c: char)
    requires d < 10
    ensures IsDigit(c) && c as int - '0' as int == d
  {
    ('0' as int + d) as char
  }

  /** The decimal text JavaScript prints for a non-negative integer id:
      at least one digit, only digits, and no leading zero. */
  function NatToString(n: nat): (s: string)
    ensures |s| >= 1 && IsDigits(s)
    ensures s[0] == '0' ==> n == 0
    decreases n
  {
    if n < 10 then [DigitChar(n)] else NatToString(n / 10) + [DigitChar(n % 10)]
  }

  /** Reads a string of decimal digits back as a number (the inverse of NatToString). */
  function ParseDecimal(s: string): nat
    requires IsDigits(s)
  {
    if |s| == 0 then 0
    else ParseDecimal(s[..|s| - 1]) * 10 + (s[|s| - 1] as int - '0' as int)
  }

  lemma {:induction false} ParseNatToString(n: nat)
    ensures ParseDecimal(NatToString(n)) == n
    decreases n
  {
    var s := NatToString(n);
    if n >= 10 {
      ParseNatToString(n / 10);
      assert s[..|s| - 1] == NatToString(n / 10);
    }
  }

  /** Distinct numbers print as distinct strings. */
  lemma NatToStringInjective(a: nat, b: nat)
    ensures NatToString(a) == NatToString(b) ==> a == b
  {
    ParseNatToString(a);
    ParseNatToString(b);
  }

  /** Two digit strings, each followed by a text that opens with a non-digit,
      can be told apart: equal concatenations have equal parts. */
  lemma DigitsBeforeSeparator(x: string, xs: string, y: string, ys: string)
    requires IsDigits(x) && IsDigits(y)
    requires |xs| > 0 && |ys| > 0 && !IsDigit(xs[0]) && !IsDigit(ys[0])
    requires x + xs == y + ys
    ensures x == y && xs == ys
  {
    var s := x + xs;
    assert forall i :: 0 <= i < |x| ==> IsDigit(s[i]);
    assert !IsDigit(s[|x|]);
    assert forall i :: 0 <= i < |y| ==> IsDigit(s[i]);
    assert !IsDigit(s[|y|]);
    assert x == (x + xs)[..|x|] && y == (y + ys)[..|y|];
    assert xs == (x + xs)[|x|..] && ys == (y + ys)[|y|..];
  }

  /** JavaScript `s || fallback` where `s` is a string attribute that may be
      missing; a missing attribute is written "" (both are falsy). */
  function OrElse(s: string, fallback: string): string {
    if s == "" then fallback else s
  }

  /** `sep` occurs in `s` starting at index `i`. */
  predicate OccursAt(s: string, sep: string, i: nat) {
    i + |sep| <= |s| && s[i..i + |sep|] == sep
  }

  /** The first index at or after `from` where `sep` occurs in `s`
      (the scan `split` performs for each piece). */
  function IndexOfFrom(s: string, sep: string, from: nat): (r: Option<nat>)
    requires |sep| > 0
    ensures r.Some? ==> from <= r.value && OccursAt(s, sep, r.value)
    ensures r.Some? ==> forall j :: from <= j < r.value ==> !OccursAt(s, sep, j)
    ensures r.None? ==> forall j :: from <= j ==> !OccursAt(s, sep, j)
    decreases |s| - from
  {
    if from + |sep| > |s| then None
    else if OccursAt(s, sep, from) then Some(from)
    else IndexOfFrom(s, sep, from + 1)
  }

  /** JavaScript `s.split(sep)[1]`: the piece between the first occurrence of
      `sep` and the next one (or the end of `s`); None stands for `undefined`,
      which the expression yields when `sep` does not occur at all. */
  function SplitSecond(s: string, sep: string): (r: Option<string>)
    requires |sep| > 0
    ensures r.None? <==> forall j :: 0 <= j ==> !OccursAt(s, sep, j)
  {
    match IndexOfFrom(s, sep, 0)
    case None => None
    case Some(p) =>
      assert OccursAt(s, sep, p);
      var start := p + |sep|;
      match IndexOfFrom(s, sep, start)
      case None => Some(s[start..])
      case Some(q) => Some(s[start..q])
  }

  /** `piece` stands in `s` right after the occurrence of `sep` at `p`, no
      occurrence of `sep` starts inside it, and it ends where the next
      occurrence starts or at the end of `s`. */
  predicate PieceAfter(s: string, sep: string, p: nat, piece: string) {
    var start, end := p + |sep|, p + |sep| + |piece|;
    && end <= |s| && s[start..end] == piece
    && (forall k :: start <= k < end ==> !OccursAt(s, sep, k))
    && (end == |s| || OccursAt(s, sep, end))
  }

  /** The piece never contains the separator; it stands in `s` right after
      the first occurrence of the separator, no occurrence starts inside it,
      and it runs up to the next occurrence or to the end of `s`. */
  lemma SplitSecondPiece(s: string, sep: string)
    requires |sep| > 0 && SplitSecond(s, sep).Some?
    ensures forall j :: 0 <= j ==> !OccursAt(SplitSecond(s, sep).value, sep, j)
    ensures exists p: nat ::
      && OccursAt(s, sep, p)
      && (forall i :: 0 <= i < p ==> !OccursAt(s, sep, i))
      && PieceAfter(s, sep, p, SplitSecond(s, sep).value)
  {
    var piece := SplitSecond(s, sep).value;
    var p := IndexOfFrom(s, sep, 0).value;
    var start := p + |sep|;
    var end := match IndexOfFrom(s, sep, start) case None => |s| case Some(q) => q;
    assert piece == s[start..end];
    forall j | 0 <= j
      ensures !OccursAt(piece, sep, j)
    {
      if OccursAt(piece, sep, j) {
        SliceOfSlice(s, start, end, j, j + |sep|);
        assert OccursAt(s, sep, start + j);
        assert false;
      }
    }
    assert |piece| == end - start;
    assert forall k :: start <= k < end ==> !OccursAt(s, sep, k);
    assert end == |s| || OccursAt(s, sep, end);
    assert PieceAfter(s, sep, p, piece);
    assert OccursAt(s, sep, p);
  }

  lemma SliceOfSlice(s: string, a: nat, b: nat, i: nat, k: nat)
    requires a <= b <= |s| && i <= k <= b - a
    ensures s[a..b][i..k] == s[a + i..a + k]
  {
    forall t | 0 <= t < k - i
      ensures s[a..b][i..k][t] == s[a + i..a + k][t]
    {
    }
  }

  /** A message after a single leading separator comes back whole. */
  lemma SplitSecondAfterPrefix(sep: string, m: string)
    requires |sep| > 0
    requires forall j :: 0 <= j ==> !OccursAt(m, sep, j)
    ensures SplitSecond(sep + m, sep) == Some(m)
  {
    var s := sep + m;
    assert OccursAt(s, sep, 0);
    forall j: nat | |sep| <= j
      ensures !OccursAt(s, sep, j)
    {
      var k: nat := j - |sep|;
      assert !OccursAt(m, sep, k);
      if j + |sep| <= |s| {
        assert s[j..j + |sep|] == m[k..k + |sep|];
      }
    }
    assert s[|sep|..] == m;
  }
}
