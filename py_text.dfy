/** The Python `str` methods the pipeline relies on, written out over
    `seq<char>`. Whitespace is Python's `str.isspace()` set; case mapping is
    restricted to ASCII letters. */
module PyText {

  /** Python's `str.isspace()` for one character. */
  predicate IsSpace(c: char)
  {
    || c == ' '
    || ('\t' <= c <= '\r')
    || ('\U{1c}' <= c <= '\U{1f}')
    || c == '\U{85}' || c == '\U{a0}' || c == '\U{1680}'
    || ('\U{2000}' <= c <= '\U{200a}')
    || c == '\U{2028}' || c == '\U{2029}' || c == '\U{202f}' || c == '\U{205f}'
    || c == '\U{3000}'
  }

  /** The index of the first non-whitespace character of `s` at or after `i`
      (or `|s|`). */
  function SkipSpaces(s: string, i: nat): (k: nat)
    requires i <= |s|
    ensures i <= k <= |s|
    ensures forall j :: i <= j < k ==> IsSpace(s[j])
    ensures k == |s| || !IsSpace(s[k])
    decreases |s| - i
  {
    if i < |s| && IsSpace(s[i]) then SkipSpaces(s, i + 1) else i
  }

  /** `s.lstrip()`: drops the leading whitespace and nothing else. */
  function TrimStart(s: string): (r: string)
    ensures |r| <= |s| && r == s[|s| - |r|..]
    ensures forall i :: 0 <= i < |s| - |r| ==> IsSpace(s[i])
    ensures r == [] || !IsSpace(r[0])
  {
    s[SkipSpaces(s, 0)..]
  }

  /** `s.rstrip()`: drops the trailing whitespace and nothing else. */
  function TrimEnd(s: string): (r: string)
    ensures |r| <= |s| && r == s[..|r|]
    ensures forall i :: |r| <= i < |s| ==> IsSpace(s[i])
    ensures r == [] || !IsSpace(r[|r| - 1])
  {
    if s != [] && IsSpace(s[|s| - 1]) then TrimEnd(s[..|s| - 1]) else s
  }

  /** True when `r` is `s` with its first `i` characters and some trailing
      characters removed, all of them whitespace. */
  ghost predicate TrimmedAt(r: string, s: string, i: int)
  {
    && 0 <= i && i + |r| <= |s| && r == s[i..i + |r|]
    && (forall j :: 0 <= j < i ==> IsSpace(s[j]))
    && (forall j :: i + |r| <= j < |s| ==> IsSpace(s[j]))
  }

  /** True when `r` is `s` with some whitespace removed at both ends. */
  ghost predicate TrimmedFrom(r: string, s: string)
  {
    exists i :: TrimmedAt(r, s, i)
  }

  /** `s.strip()`. */
  function Strip(s: string): (r: string)
    ensures TrimmedFrom(r, s)
    ensures r == [] || (!IsSpace(r[0]) && !IsSpace(r[|r| - 1]))
  {
    var t := TrimStart(s);
    var r := TrimEnd(t);
    assert TrimmedAt(r, s, |s| - |t|);
    r
  }

  /** Stripping twice is stripping once. */
  lemma StripIdempotent(s: string)
    ensures Strip(Strip(s)) == Strip(s)
  {
    var r := Strip(s);
    assert r == [] || !IsSpace(r[0]);
    assert TrimStart(r) == r;
    assert r == [] || !IsSpace(r[|r| - 1]);
  }

  /** Length of the leading run of non-whitespace characters. */
  function TokenLength(s: string): (n: nat)
    ensures n <= |s|
    ensures forall i :: 0 <= i < n ==> !IsSpace(s[i])
    ensures n == |s| || IsSpace(s[n])
  {
    if s == [] || IsSpace(s[0]) then 0 else 1 + TokenLength(s[1..])
  }

  /** A non-empty run of non-whitespace characters. */
  predicate IsWord(w: string)
  {
    w != [] && forall i :: 0 <= i < |w| ==> !IsSpace(w[i])
  }

  /** `s.split()` with no separator: the maximal runs of non-whitespace. */
  function Words(s: string): (ws: seq<string>)
    ensures forall k :: 0 <= k < |ws| ==> IsWord(ws[k])
    decreases |s|
  {
    var t := TrimStart(s);
    if t == [] then []
    else
      var n := TokenLength(t);
      [t[..n]] + Words(t[n..])
  }

  /** The characters of `s` that are not whitespace, in order. */
  function NonSpace(s: string): string
  {
    if s == [] then [] else (if IsSpace(s[0]) then [] else [s[0]]) + NonSpace(s[1..])
  }

  lemma {:induction false} NonSpaceAppend(a: string, b: string)
    ensures NonSpace(a + b) == NonSpace(a) + NonSpace(b)
  {
    if a != [] {
      assert (a + b)[1..] == a[1..] + b;
      NonSpaceAppend(a[1..], b);
    } else {
      assert a + b == b;
    }
  }

  lemma {:induction false} NonSpaceOfSpaces(a: string)
    requires forall i :: 0 <= i < |a| ==> IsSpace(a[i])
    ensures NonSpace(a) == []
  {
    if a != [] {
      NonSpaceOfSpaces(a[1..]);
    }
  }

  lemma {:induction false} NonSpaceOfToken(a: string)
    requires forall i :: 0 <= i < |a| ==> !IsSpace(a[i])
    ensures NonSpace(a) == a
  {
    if a != [] {
      NonSpaceOfToken(a[1..]);
      assert a == [a[0]] + a[1..];
    }
  }

  lemma NonSpaceTrimStart(s: string)
    ensures NonSpace(TrimStart(s)) == NonSpace(s)
  {
    var k := |s| - |TrimStart(s)|;
    assert s == s[..k] + TrimStart(s);
    NonSpaceAppend(s[..k], TrimStart(s));
    NonSpaceOfSpaces(s[..k]);
  }

  /** `split()` loses only whitespace: the words, put together, are the
      non-whitespace characters of the input in their original order. */
  lemma {:induction false} WordsKeepText(s: string)
    ensures JoinWith(Words(s), "") == NonSpace(s)
    decreases |s|
  {
    var t := TrimStart(s);
    NonSpaceTrimStart(s);
    if t != [] {
      var n := TokenLength(t);
      var w, u := t[..n], t[n..];
      assert t == w + u;
      NonSpaceAppend(w, u);
      NonSpaceOfToken(w);
      WordsKeepText(u);
      var ws := Words(s);
      assert ws == [w] + Words(u);
      if Words(u) == [] {
        assert ws == [w];
        assert w + [] == w;
      } else {
        JoinCons(w, Words(u), "");
        assert w + "" == w;
      }
    }
  }

  /** `SkipSpaces` stops at the first non-whitespace position. */
  lemma {:induction false} SkipSpacesTo(s: string, i: nat, k: nat)
    requires i <= k <= |s|
    requires forall j :: i <= j < k ==> IsSpace(s[j])
    requires k == |s| || !IsSpace(s[k])
    ensures SkipSpaces(s, i) == k
    decreases k - i
  {
    if i < k {
      SkipSpacesTo(s, i + 1, k);
    }
  }

  /** `TokenLength` stops at the first whitespace position. */
  lemma {:induction false} TokenLengthIs(s: string, n: nat)
    requires n <= |s|
    requires forall j :: 0 <= j < n ==> !IsSpace(s[j])
    requires n == |s| || IsSpace(s[n])
    ensures TokenLength(s) == n
    decreases n
  {
    if n > 0 {
      TokenLengthIs(s[1..], n - 1);
    }
  }

  /** The words depend only on the text after the leading whitespace. */
  lemma WordsFromTrim(s1: string, s2: string)
    requires TrimStart(s1) == TrimStart(s2)
    ensures Words(s1) == Words(s2)
  {
  }

  /** Slicing a concatenation inside its second part. */
  lemma SliceAfterPrefix(x: string, b: string, m: nat)
    requires m <= |b|
    ensures (x + b)[|x| + m..] == b[m..]
  {
  }

  /** Leading whitespace does not change the words. */
  lemma WordsSkipSpaces(x: string, b: string)
    requires forall j :: 0 <= j < |x| ==> IsSpace(x[j])
    ensures Words(x + b) == Words(b)
  {
    var xb := x + b;
    var m := SkipSpaces(b, 0);
    forall j | 0 <= j < |x| + m
      ensures IsSpace(xb[j])
    {
      if j < |x| {
        assert xb[j] == x[j];
      } else {
        assert xb[j] == b[j - |x|];
      }
    }
    if |x| + m < |xb| {
      assert xb[|x| + m] == b[m];
    }
    SkipSpacesTo(xb, 0, |x| + m);
    SliceAfterPrefix(x, b, m);
    WordsFromTrim(xb, b);
  }

  /** A single word splits into itself. */
  lemma WordsOfWord(w: string)
    requires IsWord(w)
    ensures Words(w) == [w]
  {
    SkipSpacesTo(w, 0, 0);
    assert TrimStart(w) == w;
    TokenLengthIs(w, |w|);
    assert w[..|w|] == w;
    assert Words(w[|w|..]) == [];
  }

  /** A whitespace character separates words: the words of `a`, a blank and
      `b` are the words of `a` followed by the words of `b`. */
  lemma {:induction false} WordsAtSpace(a: string, sp: char, b: string)
    requires IsSpace(sp)
    ensures Words(a + [sp] + b) == Words(a) + Words(b)
    decreases |a|, 1
  {
    var k := SkipSpaces(a, 0);
    var x, a1 := a[..k], a[k..];
    assert a == x + a1;
    WordsSkipSpaces(x, a1);
    ConcatAssoc(x, a1, [sp]);
    ConcatAssoc(x, a1 + [sp], b);
    WordsSkipSpaces(x, a1 + [sp] + b);
    WordsAtSpaceFromWord(a1, sp, b);
  }

  /** `WordsAtSpace` for an `a` with no leading whitespace. */
  lemma {:induction false} WordsAtSpaceFromWord(a: string, sp: char, b: string)
    requires IsSpace(sp)
    requires a == [] || !IsSpace(a[0])
    ensures Words(a + [sp] + b) == Words(a) + Words(b)
    decreases |a|, 0
  {
    var t := [sp] + b;
    ConcatAssoc(a, [sp], b);
    if a == [] {
      assert a + t == t;
      WordsSkipSpaces([sp], b);
    } else {
      var s := a + t;
      var n := TokenLength(a);
      var rest := a[n..];
      WordsOfTokenStart(a, t);
      SliceOfConcat(a, t, n);
      ConcatAssoc(rest, [sp], b);
      WordsAtSpace(rest, sp, b);
      assert Words(a) == [a[..n]] + Words(rest);
      ConcatAssoc([a[..n]], Words(rest), Words(b));
    }
  }

  /** A string that starts with a word, followed by text that starts with
      whitespace, splits off that word first. */
  lemma WordsOfTokenStart(a: string, t: string)
    requires a != [] && !IsSpace(a[0]) && t != [] && IsSpace(t[0])
    ensures Words(a + t) == [a[..TokenLength(a)]] + Words((a + t)[TokenLength(a)..])
    ensures (a + t)[..TokenLength(a)] == a[..TokenLength(a)]
  {
    var s := a + t;
    SkipSpacesTo(s, 0, 0);
    assert TrimStart(s) == s;
    var n := TokenLength(a);
    TokenLengthIs(s, n);
    assert s[..n] == a[..n];
  }

  /** Slicing a concatenation inside its first part. */
  lemma SliceOfConcat(a: string, t: string, n: nat)
    requires n <= |a|
    ensures (a + t)[n..] == a[n..] + t
  {
  }

  /** Stripping first does not change the words: `s.strip().split()` is
      `s.split()`. */
  lemma WordsStrip(s: string)
    ensures Words(Strip(s)) == Words(s)
  {
    var t := TrimStart(s);
    SkipSpacesTo(t, 0, 0);
    assert TrimStart(t) == t;
    WordsFromTrim(t, s);
    WordsTrimEnd(t);
  }

  /** A string is its part before position `k`, the character there, and the
      rest. */
  lemma SplitAround(t: string, k: nat)
    requires k < |t|
    ensures t == t[..k] + [t[k]] + t[k + 1..]
  {
  }

  /** Trailing whitespace does not change the words. */
  lemma WordsTrimEnd(t: string)
    ensures Words(TrimEnd(t)) == Words(t)
  {
    var r := TrimEnd(t);
    if |r| < |t| {
      var sp, tail := t[|r|], t[|r| + 1..];
      SplitAround(t, |r|);
      assert t == r + [sp] + tail;
      WordsAtSpace(r, sp, tail);
      BlanksAfter(t, |r| + 1, tail);
      WordsOfBlanks(tail);
      assert Words(r) + [] == Words(r);
    } else {
      assert r == t;
    }
  }

  /** A piece of a string that lies in a whitespace run is whitespace. */
  lemma BlanksAfter(t: string, k: nat, tail: string)
    requires k <= |t| && tail == t[k..]
    requires forall j :: k <= j < |t| ==> IsSpace(t[j])
    ensures forall j :: 0 <= j < |tail| ==> IsSpace(tail[j])
  {
    forall j | 0 <= j < |tail|
      ensures IsSpace(tail[j])
    {
      assert tail[j] == t[k + j];
    }
  }

  /** Whitespace alone has no words. */
  lemma WordsOfBlanks(x: string)
    requires forall j :: 0 <= j < |x| ==> IsSpace(x[j])
    ensures Words(x) == []
  {
    WordsSkipSpaces(x, []);
    assert x + [] == x;
  }


  /** ASCII `c.lower()`. */
  function LowerChar(c: char): char
  {
    if 'A' <= c <= 'Z' then (c as int + 32) as char else c
  }

  /** `s.lower()`, restricted to the ASCII letters. */
  function Lower(s: string): (r: string)
    ensures |r| == |s|
    ensures forall i :: 0 <= i < |r| ==> !('A' <= r[i] <= 'Z')
    ensures forall i :: 0 <= i < |s| && !('A' <= s[i] <= 'Z') ==> r[i] == s[i]
    ensures forall i :: 0 <= i < |s| && 'A' <= s[i] <= 'Z' ==> r[i] as int == s[i] as int + 32
  {
    seq(|s|, i requires 0 <= i < |s| => LowerChar(s[i]))
  }

  /** `s.replace(c, '')` for a one-character `c`. */
  function RemoveChar(s: string, c: char): (r: string)
    ensures multiset(r) == multiset(s)[c := 0]
    ensures forall x :: x in r ==> x in s && x != c
    ensures forall x :: x in s && x != c ==> x in r
  {
    if s == [] then []
    else
      assert s == [s[0]] + s[1..];
      (if s[0] == c then [] else [s[0]]) + RemoveChar(s[1..], c)
  }

  /** Removal works piece by piece, so it keeps the order of what it keeps. */
  lemma {:induction false} RemoveCharAppend(a: string, b: string, c: char)
    ensures RemoveChar(a + b, c) == RemoveChar(a, c) + RemoveChar(b, c)
  {
    if a == [] {
      assert a + b == b;
    } else {
      var h := if a[0] == c then [] else [a[0]];
      assert (a + b)[0] == a[0];
      assert (a + b)[1..] == a[1..] + b;
      RemoveCharAppend(a[1..], b, c);
      assert RemoveChar(a + b, c) == h + RemoveChar(a[1..] + b, c);
      assert RemoveChar(a, c) == h + RemoveChar(a[1..], c);
      ConcatAssoc(h, RemoveChar(a[1..], c), RemoveChar(b, c));
    }
  }

  /** True when `pat` occurs in `s` starting at index `i`. */
  predicate OccursAt(s: string, pat: string, i: int)
  {
    0 <= i && i + |pat| <= |s| && s[i..i + |pat|] == pat
  }

  /** Python's `pat in s`. */
  ghost predicate Contains(s: string, pat: string)
  {
    exists i :: OccursAt(s, pat, i)
  }

  /** `s.replace(pat, '')`: removes the occurrences of `pat` found scanning
      left to right, without overlaps. */
  function RemoveAll(s: string, pat: string): (r: string)
    requires pat != []
    ensures |r| <= |s|
    decreases |s|
  {
    if s == [] then []
    else if pat <= s then RemoveAll(s[|pat|..], pat)
    else [s[0]] + RemoveAll(s[1..], pat)
  }

  /** A string without `pat` comes through unchanged. */
  lemma {:induction false} RemoveAllAbsent(s: string, pat: string)
    requires pat != [] && !Contains(s, pat)
    ensures RemoveAll(s, pat) == s
    decreases |s|
  {
    if s != [] {
      assert !OccursAt(s, pat, 0);
      forall i | 0 <= i
        ensures !OccursAt(s[1..], pat, i)
      {
        if i + |pat| <= |s| - 1 {
          assert s[1..][i..i + |pat|] == s[i + 1..i + 1 + |pat|];
          assert !OccursAt(s, pat, i + 1);
        }
      }
      RemoveAllAbsent(s[1..], pat);
    }
  }

  /** Helper: the first kept character when `s` does not start with `c`. */
  lemma RemovePairHead(s: string, c: char)
    requires s != [] && s[0] != c
    ensures RemoveAll(s, [c, c]) != [] && RemoveAll(s, [c, c])[0] == s[0]
  {
    assert !([c, c] <= s);
  }

  /** Removing a doubled character such as `__` leaves no doubled character:
      a kept `c` is never followed by another `c`. */
  lemma {:induction false} RemovePairLeavesNone(s: string, c: char)
    ensures !Contains(RemoveAll(s, [c, c]), [c, c])
    decreases |s|
  {
    var r := RemoveAll(s, [c, c]);
    if s != [] {
      if [c, c] <= s {
        RemovePairLeavesNone(s[2..], c);
      } else {
        RemovePairLeavesNone(s[1..], c);
        var rest := RemoveAll(s[1..], [c, c]);
        assert r == [s[0]] + rest;
        forall i | 0 <= i
          ensures !OccursAt(r, [c, c], i)
        {
          if i > 0 {
            if i + 2 <= |r| {
              assert rest[i - 1..i + 1] == r[i..i + 2];
              assert !OccursAt(rest, [c, c], i - 1);
            }
          } else if |s| < 2 {
            assert s[1..] == [];
            assert |r| == 1;
          } else if s[1] != c {
            RemovePairHead(s[1..], c);
            assert r[1] == s[1];
          } else {
            assert r[0] == s[0] != c;
          }
        }
      }
    }
  }

  /** `s.lstrip(c)` for a one-character `c`. */
  function LStripChar(s: string, c: char): (r: string)
    ensures |r| <= |s| && r == s[|s| - |r|..]
    ensures forall i :: 0 <= i < |s| - |r| ==> s[i] == c
    ensures r == [] || r[0] != c
  {
    if s != [] && s[0] == c then LStripChar(s[1..], c) else s
  }

  function Zeros(n: nat): (r: string)
    ensures |r| == n
    ensures forall i :: 0 <= i < n ==> r[i] == '0'
  {
    seq(n, _ => '0')
  }

  /** `s.zfill(width)`: pads with '0' on the left up to `width`, keeping a
      leading sign in front of the padding. */
  function ZFill(s: string, width: nat): (r: string)
    ensures |r| == if |s| >= width then |s| else width
    ensures |s| >= width ==> r == s
  {
    if |s| >= width then s
    else if s != [] && (s[0] == '+' || s[0] == '-') then [s[0]] + Zeros(width - |s|) + s[1..]
    else Zeros(width - |s|) + s
  }

  /** The cases of `zfill(2)` on a one-character string. */
  lemma ZFillOneChar(s: string)
    requires |s| == 1
    ensures s[0] != '+' && s[0] != '-' ==> ZFill(s, 2) == ['0', s[0]]
    ensures (s[0] == '+' || s[0] == '-') ==> ZFill(s, 2) == [s[0], '0']
  {
  }

  function DigitChar(d: nat): (c: char)
    requires d < 10
    ensures '0' <= c <= '9'
  {
    ('0' as int + d) as char
  }

  predicate AllDigits(s: string)
  {
    forall i :: 0 <= i < |s| ==> '0' <= s[i] <= '9'
  }

  /** `str(n)` for a natural number. */
  function NatToString(n: nat): (r: string)
    ensures r != [] && AllDigits(r)
    ensures r[0] == '0' ==> n == 0
  {
    if n < 10 then [DigitChar(n)] else NatToString(n / 10) + [DigitChar(n % 10)]
  }

  /** The number a string of decimal digits denotes. */
  function DecimalValue(s: string): nat
    requires AllDigits(s)
  {
    if s == [] then 0
    else 10 * DecimalValue(s[..|s| - 1]) + (s[|s| - 1] as int - '0' as int)
  }

  /** `str(n)` can be read back. */
  lemma {:induction false} NatToStringRoundTrip(n: nat)
    ensures DecimalValue(NatToString(n)) == n
  {
    if n >= 10 {
      NatToStringRoundTrip(n / 10);
      var r := NatToString(n);
      assert r[..|r| - 1] == NatToString(n / 10);
    }
  }

  /** `str(i)` for an integer. */
  function IntToString(i: int): string
  {
    if i < 0 then "-" + NatToString(-i) else NatToString(i)
  }

  /** `str(i)` can be read back: its digits give `i`, after a '-' when `i`
      is negative. */
  lemma IntToStringRoundTrip(i: int)
    ensures i >= 0 ==> AllDigits(IntToString(i)) && DecimalValue(IntToString(i)) == i
    ensures i < 0 ==> && IntToString(i)[0] == '-'
                      && AllDigits(IntToString(i)[1..])
                      && DecimalValue(IntToString(i)[1..]) == -i
  {
    if i >= 0 {
      NatToStringRoundTrip(i);
    } else {
      NatToStringRoundTrip(-i);
      assert IntToString(i)[1..] == NatToString(-i);
    }
  }

  /** `s.split(sep)` for a one-character separator. */
  function SplitOn(s: string, sep: char): (parts: seq<string>)
    ensures |parts| == multiset(s)[sep] + 1
    ensures forall p :: p in parts ==> sep !in p
  {
    if s == [] then [[]]
    else
      assert s == [s[0]] + s[1..];
      var rest := SplitOn(s[1..], sep);
      if s[0] == sep then [[]] + rest else [[s[0]] + rest[0]] + rest[1..]
  }

  /** `s.split(sep)[0]` is the text before the first `sep`: a prefix of `s`
      without `sep`, followed by a `sep` unless it is all of `s`. */
  lemma {:induction false} SplitHeadIsPrefix(s: string, sep: char)
    ensures SplitOn(s, sep)[0] <= s && sep !in SplitOn(s, sep)[0]
    ensures |SplitOn(s, sep)[0]| < |s| ==> s[|SplitOn(s, sep)[0]|] == sep
  {
    if s != [] && s[0] != sep {
      SplitHeadIsPrefix(s[1..], sep);
    }
  }

  /** `sep.join(parts)`. */
  function JoinWith(parts: seq<string>, sep: string): string
  {
    if parts == [] then []
    else if |parts| == 1 then parts[0]
    else parts[0] + sep + JoinWith(parts[1..], sep)
  }

  lemma JoinCons(p: string, rest: seq<string>, sep: string)
    requires rest != []
    ensures JoinWith([p] + rest, sep) == p + sep + JoinWith(rest, sep)
  {
    assert ([p] + rest)[1..] == rest;
  }

  lemma JoinThree(a: string, b: string, c: string, sep: string)
    ensures JoinWith([a, b, c], sep) == a + sep + b + sep + c
  {
    JoinCons(a, [b, c], sep);
    JoinCons(b, [c], sep);
    assert [a, b, c] == [a] + [b, c];
    assert [b, c] == [b] + [c];
  }

  lemma SplitJoinThree(a: string, b: string, c: string, sep: char)
    requires sep !in a && sep !in b && sep !in c
    ensures SplitOn(JoinWith([a, b, c], [sep]), sep) == [a, b, c]
  {
    var fields := [a, b, c];
    assert forall p :: p in fields ==> sep !in p;
    SplitJoin(fields, sep);
  }

  lemma JoinPrependFirst(x: char, rest: seq<string>, sep: string)
    requires rest != []
    ensures JoinWith([[x] + rest[0]] + rest[1..], sep) == [x] + JoinWith(rest, sep)
  {
    var parts := [[x] + rest[0]] + rest[1..];
    if |rest| > 1 {
      assert parts[1..] == rest[1..];
      assert JoinWith(rest, sep) == rest[0] + sep + JoinWith(rest[1..], sep);
      assert JoinWith(parts, sep) == ([x] + rest[0]) + sep + JoinWith(rest[1..], sep);
    }
  }

  /** Joining the pieces of a split with the separator gives back the string. */
  lemma {:induction false} JoinSplit(s: string, sep: char)
    ensures JoinWith(SplitOn(s, sep), [sep]) == s
  {
    if s != [] {
      var rest := SplitOn(s[1..], sep);
      JoinSplit(s[1..], sep);
      if s[0] == sep {
        assert SplitOn(s, sep) == [[]] + rest;
        JoinCons([], rest, [sep]);
      } else {
        assert SplitOn(s, sep) == [[s[0]] + rest[0]] + rest[1..];
        JoinPrependFirst(s[0], rest, [sep]);
      }
    }
  }

  lemma {:induction false} SplitOnPrefix(a: string, t: string, sep: char)
    requires sep !in a
    ensures SplitOn(a + t, sep) == [a + SplitOn(t, sep)[0]] + SplitOn(t, sep)[1..]
  {
    var pt := SplitOn(t, sep);
    if a != [] {
      assert (a + t)[1..] == a[1..] + t;
      assert (a + t)[0] == a[0];
      SplitOnPrefix(a[1..], t, sep);
      assert a == [a[0]] + a[1..];
      assert [a[0]] + (a[1..] + pt[0]) == a + pt[0];
    } else {
      assert a + t == t;
      assert a + pt[0] == pt[0];
      assert pt == [pt[0]] + pt[1..];
    }
  }

  /** Helper: string concatenation is associative. */
  lemma ConcatAssoc<T>(a: seq<T>, b: seq<T>, c: seq<T>)
    ensures a + b + c == a + (b + c)
  {
  }

  /** A leading separator splits off an empty first piece. */
  lemma SplitOnSepFirst(t: string, sep: char)
    ensures SplitOn([sep] + t, sep) == [[]] + SplitOn(t, sep)
  {
    assert ([sep] + t)[1..] == t;
  }

  /** Splitting a join of separator-free pieces gives back the pieces. */
  lemma {:induction false} SplitJoin(parts: seq<string>, sep: char)
    requires parts != []
    requires forall p :: p in parts ==> sep !in p
    ensures SplitOn(JoinWith(parts, [sep]), sep) == parts
  {
    if |parts| == 1 {
      SplitOnPrefix(parts[0], [], sep);
      assert parts[0] + [] == parts[0];
    } else {
      var rest := parts[1..];
      var tail := JoinWith(rest, [sep]);
      assert forall p :: p in rest ==> p in parts;
      SplitJoin(rest, sep);
      JoinCons(parts[0], rest, [sep]);
      assert parts == [parts[0]] + rest;
      ConcatAssoc(parts[0], [sep], tail);
      SplitOnSepFirst(tail, sep);
      SplitOnPrefix(parts[0], [sep] + tail, sep);
      assert parts[0] + [] == parts[0];
    }
  }
}
