/**
 * The parts of `java.lang.String` and `Integer` the request parser relies on, for literal
 * separators: `indexOf`, `split` (which drops trailing empty pieces), `trim`,
 * `Integer.parseInt` and `Integer.toString`.
 */
module JavaStrings {
  import opened Wrappers
  import opened JavaInts

  predicate OccursAt(s: string, sep: string, i: int)
  {
    0 <= i && i + |sep| <= |s| && s[i..i + |sep|] == sep
  }

  /** `s.indexOf(sep, from)`: the first position at or after `from` where `sep` occurs. */
  function IndexFrom(s: string, sep: string, from: nat): (r: Option<nat>)
    requires |sep| > 0
    ensures r.Some? ==> from <= r.value && OccursAt(s, sep, r.value)
    ensures r.Some? ==> forall j :: from <= j < r.value ==> !OccursAt(s, sep, j)
    ensures r.None? ==> forall j :: from <= j ==> !OccursAt(s, sep, j)
    decreases |s| - from
  {
    if from + |sep| > |s| then None
    else if s[from..from + |sep|] == sep then Some(from)
    else IndexFrom(s, sep, from + 1)
  }

  function IndexOf(s: string, sep: string): Option<nat>
    requires |sep| > 0
  {
    IndexFrom(s, sep, 0)
  }

  predicate Contains(s: string, sep: string)
    requires |sep| > 0
  {
    IndexOf(s, sep).Some?
  }

  /** Every piece between occurrences of `sep`, trailing empty pieces included. */
  function SplitAll(s: string, sep: string): (pieces: seq<string>)
    requires |sep| > 0
    decreases |s|
  {
    match IndexOf(s, sep)
    case None => [s]
    case Some(i) => [s[..i]] + SplitAll(s[i + |sep|..], sep)
  }

  function Join(pieces: seq<string>, sep: string): string
    requires |pieces| > 0
  {
    if |pieces| == 1 then pieces[0] else pieces[0] + sep + Join(pieces[1..], sep)
  }

  function DropTrailingEmpty(pieces: seq<string>): (r: seq<string>)
    ensures |r| <= |pieces| && r == pieces[..|r|]
    ensures forall i :: |r| <= i < |pieces| ==> pieces[i] == ""
    ensures |r| > 0 ==> r[|r| - 1] != ""
  {
    if |pieces| > 0 && pieces[|pieces| - 1] == "" then DropTrailingEmpty(pieces[..|pieces| - 1]) else pieces
  }

  /**
   * Java's `s.split(sep)` for a separator without regular-expression metacharacters: with no
   * occurrence the result is `[s]` (even for an empty `s`); otherwise the pieces, with trailing
   * empty ones removed.
   */
  function Split(s: string, sep: string): seq<string>
    requires |sep| > 0
  {
    if !Contains(s, sep) then [s] else DropTrailingEmpty(SplitAll(s, sep))
  }

  lemma NoOccurrenceInPrefix(s: string, sep: string, i: nat)
    requires |sep| > 0 && i <= |s|
    requires forall j :: 0 <= j < i ==> !OccursAt(s, sep, j)
    ensures !Contains(s[..i], sep)
  {
    if Contains(s[..i], sep) {
      var j := IndexOf(s[..i], sep).value;
      assert s[..i][j..j + |sep|] == s[j..j + |sep|];
      assert OccursAt(s, sep, j);
      assert false;
    }
  }

  /** One step of `SplitAll`: the text before the first occurrence, then the split of the rest. */
  lemma SplitAllStep(s: string, sep: string, i: nat)
    requires |sep| > 0 && IndexOf(s, sep) == Some(i)
    ensures i + |sep| <= |s|
    ensures SplitAll(s, sep) == [s[..i]] + SplitAll(s[i + |sep|..], sep)
    ensures s == s[..i] + sep + s[i + |sep|..]
  {
    OccurrenceSplits(s, sep, i);
  }

  /** Cutting a string around an occurrence of `sep` and gluing it back. */
  lemma OccurrenceSplits(s: string, sep: string, i: nat)
    requires OccursAt(s, sep, i)
    ensures s == s[..i] + sep + s[i + |sep|..]
  {
    var n := i + |sep|;
    assert s[i..n] == sep;
    assert s == s[..i] + s[i..n] + s[n..];
  }

  lemma JoinCons(p: string, tail: seq<string>, sep: string)
    requires |tail| > 0
    ensures Join([p] + tail, sep) == p + sep + Join(tail, sep)
  {
    assert ([p] + tail)[1..] == tail;
  }

  /** Splitting loses nothing: joining the pieces back gives `s`. */
  lemma {:induction false} SplitAllJoin(s: string, sep: string)
    requires |sep| > 0
    ensures |SplitAll(s, sep)| > 0
    ensures Join(SplitAll(s, sep), sep) == s
    decreases |s|
  {
    match IndexOf(s, sep)
    case None =>
    case Some(i) =>
      SplitAllStep(s, sep, i);
      var rest := s[i + |sep|..];
      SplitAllJoin(rest, sep);
      JoinCons(s[..i], SplitAll(rest, sep), sep);
  }

  /** No piece of a split holds the separator. */
  lemma {:induction false} SplitAllPiecesFree(s: string, sep: string)
    requires |sep| > 0
    ensures forall k :: 0 <= k < |SplitAll(s, sep)| ==> !Contains(SplitAll(s, sep)[k], sep)
    decreases |s|
  {
    match IndexOf(s, sep)
    case None =>
    case Some(i) =>
      SplitAllStep(s, sep, i);
      var rest := s[i + |sep|..];
      SplitAllPiecesFree(rest, sep);
      NoOccurrenceInPrefix(s, sep, i);
      var pieces := SplitAll(s, sep);
      forall k | 0 <= k < |pieces|
        ensures !Contains(pieces[k], sep)
      {
        if k > 0 { assert pieces[k] == SplitAll(rest, sep)[k - 1]; }
      }
  }

  /** What `split` keeps: a prefix of all the pieces, dropping only empty ones, and none holds `sep`. */
  lemma SplitPieces(s: string, sep: string)
    requires |sep| > 0
    ensures Split(s, sep) == SplitAll(s, sep)[..|Split(s, sep)|]
    ensures forall i :: |Split(s, sep)| <= i < |SplitAll(s, sep)| ==> SplitAll(s, sep)[i] == ""
    ensures forall k :: 0 <= k < |Split(s, sep)| ==> !Contains(Split(s, sep)[k], sep)
  {
    SplitAllPiecesFree(s, sep);
  }

  /** A one-character separator occurs exactly where that character does. */
  lemma ContainsChar(s: string, c: char)
    ensures Contains(s, [c]) <==> exists i :: 0 <= i < |s| && s[i] == c
  {
    if Contains(s, [c]) {
      var j := IndexOf(s, [c]).value;
      assert s[j..j + 1] == [c];
      assert s[j] == c;
    }
    if exists i :: 0 <= i < |s| && s[i] == c {
      var i :| 0 <= i < |s| && s[i] == c;
      assert s[i..i + 1] == [c];
      assert OccursAt(s, [c], i);
    }
  }

  /** After a separator-free prefix, the first occurrence of a one-character separator is the one that follows it. */
  lemma FirstAfterFree(u: string, sep: string, rest: string)
    requires |sep| == 1 && !Contains(u, sep)
    ensures IndexOf(u + sep + rest, sep) == Some(|u|)
  {
    var s := u + sep + rest;
    assert OccursAt(s, sep, |u|) by { assert s[|u|..|u| + 1] == sep; }
    forall j | 0 <= j < |u|
      ensures !OccursAt(s, sep, j)
    {
      if OccursAt(s, sep, j) {
        assert s[j] == sep[0] && u[j] == s[j];
        assert OccursAt(u, sep, j) by { assert u[j..j + 1] == [u[j]]; assert sep == [sep[0]]; }
        assert false;
      }
    }
  }

  /** A string with one single-character separator in it splits into the text before and after. */
  lemma SplitOnce(u: string, q: string, sep: string)
    requires |sep| == 1 && !Contains(u, sep) && !Contains(q, sep)
    ensures Split(u + sep + q, sep) == if q != "" then [u, q] else if u != "" then [u] else []
  {
    var s := u + sep + q;
    FirstAfterFree(u, sep, q);
    assert s[..|u|] == u;
    assert s[|u| + 1..] == q;
    assert SplitAll(q, sep) == [q];
    assert SplitAll(s, sep) == [u] + [q];
    assert Contains(s, sep);
    if q == "" {
      assert DropTrailingEmpty([u, q]) == DropTrailingEmpty([u]);
      if u == "" {
        assert DropTrailingEmpty([u]) == DropTrailingEmpty([]);
      }
    }
  }

  /** A leading piece survives the removal of trailing empty pieces when some later piece does. */
  lemma {:induction false} DropTrailingEmptyCons(u: string, xs: seq<string>)
    requires DropTrailingEmpty(xs) != []
    ensures DropTrailingEmpty([u] + xs) == [u] + DropTrailingEmpty(xs)
    decreases |xs|
  {
    if xs[|xs| - 1] == "" {
      assert ([u] + xs)[..|xs|] == [u] + xs[..|xs| - 1];
      DropTrailingEmptyCons(u, xs[..|xs| - 1]);
    }
  }

  /**
   * Splitting off a separator-free first piece: the rest splits as it would on its own, provided
   * its own split ends in a non-empty piece.
   */
  lemma SplitFirst(u: string, rest: string, sep: string)
    requires |sep| == 1 && !Contains(u, sep)
    requires |Split(rest, sep)| > 0 && Split(rest, sep)[|Split(rest, sep)| - 1] != ""
    ensures Split(u + sep + rest, sep) == [u] + Split(rest, sep)
  {
    var s := u + sep + rest;
    FirstAfterFree(u, sep, rest);
    assert s[..|u|] == u;
    assert s[|u| + 1..] == rest;
    assert SplitAll(s, sep) == [u] + SplitAll(rest, sep);
    assert Contains(s, sep);
    if Contains(rest, sep) {
      DropTrailingEmptyCons(u, SplitAll(rest, sep));
    } else {
      assert SplitAll(rest, sep) == [rest];
      assert DropTrailingEmpty([u] + [rest]) == [u, rest];
    }
  }

  /** Dropping the leading characters up to U+0020, as `String.trim` does. */
  function TrimStart(s: string): (r: string)
    ensures |r| <= |s| && r == s[|s| - |r|..]
    ensures r != [] ==> r[0] > ' '
    ensures forall i :: 0 <= i < |s| - |r| ==> s[i] <= ' '
  {
    if |s| > 0 && s[0] <= ' ' then TrimStart(s[1..]) else s
  }

  function TrimEnd(s: string): (r: string)
    ensures |r| <= |s| && r == s[..|r|]
    ensures r != [] ==> r[|r| - 1] > ' '
    ensures forall i :: |r| <= i < |s| ==> s[i] <= ' '
  {
    if |s| > 0 && s[|s| - 1] <= ' ' then TrimEnd(s[..|s| - 1]) else s
  }

  /** `s.trim()`. */
  function Trim(s: string): string
  {
    TrimEnd(TrimStart(s))
  }

  predicate IsDigit(c: char) { '0' <= c <= '9' }

  predicate AllDigits(t: string) { forall i :: 0 <= i < |t| ==> IsDigit(t[i]) }

  function DigitsValue(t: string): nat
    requires AllDigits(t)
  {
    if t == [] then 0 else DigitsValue(t[..|t| - 1]) * 10 + (t[|t| - 1] as int - '0' as int)
  }

  /** `Integer.parseInt(s)`: an optional sign, at least one decimal digit, a value in `int` range. */
  function ParseInt(s: string): (r: Option<int>)
    ensures r.Some? ==> IsInt32(r.value)
  {
    if |s| == 0 then None
    else
      var digits := if s[0] == '-' || s[0] == '+' then s[1..] else s;
      if |digits| == 0 || !AllDigits(digits) then None
      else
        var n: int := DigitsValue(digits);
        var v := if s[0] == '-' then -n else n;
        if IsInt32(v) then Some(v) else None
  }

  function DigitChar(d: nat): char
    requires d < 10
  {
    ('0' as int + d) as char
  }

  /** The decimal digits of `n`, most significant first, without leading zeros. */
  function NatDigits(n: nat): (r: string)
    ensures |r| > 0 && AllDigits(r)
  {
    if n < 10 then [DigitChar(n)] else NatDigits(n / 10) + [DigitChar(n % 10)]
  }

  /** `Integer.toString(n)` / string concatenation of an `int`. */
  function IntToString(n: int): string
  {
    if n < 0 then "-" + NatDigits(-n) else NatDigits(n)
  }

  lemma {:induction false} NatDigitsValue(n: nat)
    ensures DigitsValue(NatDigits(n)) == n
  {
    if n >= 10 {
      NatDigitsValue(n / 10);
      var r := NatDigits(n);
      assert r[..|r| - 1] == NatDigits(n / 10);
    }
  }

  /** `Integer.parseInt` reads back what `Integer.toString` wrote. */
  lemma ParseIntToString(n: int)
    requires IsInt32(n)
    ensures ParseInt(IntToString(n)) == Some(n)
  {
    var s := IntToString(n);
    if n < 0 {
      NatDigitsValue(-n);
      assert s[1..] == NatDigits(-n);
    } else {
      NatDigitsValue(n);
    }
  }

  lemma IntToStringInjective(a: int, b: int)
    requires IsInt32(a) && IsInt32(b) && IntToString(a) == IntToString(b)
    ensures a == b
  {
    ParseIntToString(a);
    ParseIntToString(b);
  }
}
