/** String helpers shared by the query builders, the validators and the
    HTTP client: joining with a separator, trimming trailing characters,
    splitting, and decimal rendering as Go's strconv.Itoa does it. */
module Strings {

  /** Concatenates a sequence of sequences, left to right. */
  function Flatten<T>(xss: seq<seq<T>>): (r: seq<T>)
    ensures |xss| == 0 ==> r == []
  {
    if |xss| == 0 then [] else xss[0] + Flatten(xss[1..])
  }

  lemma {:induction false} FlattenAppend<T>(a: seq<seq<T>>, b: seq<seq<T>>)
    ensures Flatten(a + b) == Flatten(a) + Flatten(b)
  {
    if |a| == 0 {
      assert a + b == b;
    } else {
      assert (a + b)[1..] == a[1..] + b;
      FlattenAppend(a[1..], b);
    }
  }

  /** Writes every part, with `sep` between consecutive parts and nowhere
      else: the "write, then a separator unless last" loop of the source. */
  function Join(sep: string, parts: seq<string>): (r: string)
    ensures |parts| == 0 ==> r == ""
    decreases |parts|
  {
    if |parts| == 0 then ""
    else if |parts| == 1 then parts[0]
    else parts[0] + sep + Join(sep, parts[1..])
  }

  lemma {:induction false} JoinAppend(sep: string, a: seq<string>, b: seq<string>)
    requires |a| > 0 && |b| > 0
    ensures Join(sep, a + b) == Join(sep, a) + sep + Join(sep, b)
    decreases |a|
  {
    if |a| == 1 {
      assert (a + b)[1..] == b;
    } else {
      assert (a + b)[1..] == a[1..] + b;
      JoinAppend(sep, a[1..], b);
    }
  }

  /** Joins each group on its own. */
  function JoinEach(sep: string, groups: seq<seq<string>>): (r: seq<string>)
    ensures |r| == |groups|
    ensures forall i :: 0 <= i < |groups| ==> r[i] == Join(sep, groups[i])
  {
    if |groups| == 0 then [] else [Join(sep, groups[0])] + JoinEach(sep, groups[1..])
  }

  /** Joining the groups one by one and then joining the results gives the
      same text as joining all their members at once, provided no group is
      empty (an empty group would leave a doubled separator behind). */
  lemma {:induction false} JoinFlatten(sep: string, groups: seq<seq<string>>)
    requires forall i :: 0 <= i < |groups| ==> |groups[i]| > 0
    ensures Join(sep, Flatten(groups)) == Join(sep, JoinEach(sep, groups))
  {
    if |groups| == 1 {
      assert Flatten(groups) == groups[0] + Flatten(groups[1..]) == groups[0];
    } else if |groups| > 1 {
      var rest := groups[1..];
      JoinFlatten(sep, rest);
      assert |Flatten(rest)| > 0 by {
        assert Flatten(rest) == rest[0] + Flatten(rest[1..]);
      }
      JoinAppend(sep, groups[0], Flatten(rest));
      assert JoinEach(sep, groups)[1..] == JoinEach(sep, rest);
    }
  }

  /** Writes every part followed by one space. */
  function SpaceTerminated(parts: seq<string>): string {
    if |parts| == 0 then "" else parts[0] + " " + SpaceTerminated(parts[1..])
  }

  lemma {:induction false} SpaceTerminatedJoin(xs: seq<string>, parts: seq<string>)
    requires |xs| > 0
    ensures Join(" ", xs) + " " + SpaceTerminated(parts) == Join(" ", xs + parts) + " "
    decreases |parts|
  {
    if |parts| == 0 {
      assert xs + parts == xs;
    } else {
      JoinAppend(" ", xs, [parts[0]]);
      SpaceTerminatedJoin(xs + [parts[0]], parts[1..]);
      assert xs + [parts[0]] + parts[1..] == xs + parts;
    }
  }

  /** The names of a list of enumeration values, in list order. */
  function Names<T>(xs: seq<T>, name: T -> string): (r: seq<string>)
    ensures |r| == |xs|
    ensures forall i :: 0 <= i < |xs| ==> r[i] == name(xs[i])
  {
    if |xs| == 0 then [] else [name(xs[0])] + Names(xs[1..], name)
  }

  /** Go's `fmt` rendering of a slice or array of strings: `[a b c]`. */
  function Bracketed(items: seq<string>): (r: string)
    ensures |r| >= 2 && r[0] == '[' && r[|r| - 1] == ']'
  {
    "[" + Join(" ", items) + "]"
  }

  /** Go's strings.TrimRight with a one-character cut set. */
  function TrimRight(s: string, c: char): (r: string)
    ensures r <= s
    ensures forall i :: |r| <= i < |s| ==> s[i] == c
    ensures r == [] || r[|r| - 1] != c
    decreases |s|
  {
    if |s| > 0 && s[|s| - 1] == c then TrimRight(s[..|s| - 1], c) else s
  }

  /** The three properties in TrimRight's contract determine its result. */
  lemma TrimRightUnique(s: string, c: char, r: string)
    requires r <= s
    requires forall i :: |r| <= i < |s| ==> s[i] == c
    requires r == [] || r[|r| - 1] != c
    ensures r == TrimRight(s, c)
  {
    var t := TrimRight(s, c);
    assert |t| == |r|;
    assert r == s[..|r|] == t;
  }

  /** Trimming keeps everything up to the last character that is not `c`. */
  lemma TrimRightEmpty(s: string, c: char)
    ensures TrimRight(s, c) == [] <==> forall i :: 0 <= i < |s| ==> s[i] == c
  {
    var t := TrimRight(s, c);
  }

  /** Appending text can only extend what survives a right trim. */
  lemma TrimRightAppend(a: string, b: string, c: char)
    ensures TrimRight(a, c) <= TrimRight(a + b, c)
  {
    var t := TrimRight(a, c);
    var u := TrimRight(a + b, c);
    if |t| > 0 {
      assert (a + b)[|t| - 1] == t[|t| - 1] != c;
    }
    assert t == a[..|t|] == (a + b)[..|t|] == u[..|t|];
  }

  /** A trailing cut character is trimmed away with the rest. */
  lemma TrimRightDropLast(s: string, c: char)
    ensures TrimRight(s + [c], c) == TrimRight(s, c)
  {
    assert (s + [c])[..|s|] == s;
  }

  /** Splits at every occurrence of `c`, as Go's strings.Split. */
  function Split(s: string, c: char): (r: seq<string>)
    ensures |r| > 0
    decreases |s|
  {
    if |s| == 0 then [""]
    else
      var rest := Split(s[1..], c);
      if s[0] == c then [""] + rest else [[s[0]] + rest[0]] + rest[1..]
  }

  lemma {:induction false} SplitNoSeparator(p: string, c: char)
    requires c !in p
    ensures Split(p, c) == [p]
    decreases |p|
  {
    if |p| > 0 {
      SplitNoSeparator(p[1..], c);
      assert [p[0]] + p[1..] == p;
    }
  }

  lemma {:induction false} SplitPrefix(p: string, c: char, t: string)
    requires c !in p
    ensures Split(p + [c] + t, c) == [p] + Split(t, c)
    decreases |p|
  {
    var s := p + [c] + t;
    if |p| == 0 {
      assert s[1..] == t;
    } else {
      assert s[1..] == p[1..] + [c] + t;
      SplitPrefix(p[1..], c, t);
      assert [p[0]] + p[1..] == p;
    }
  }

  /** Splitting undoes joining when no part contains the separator. */
  lemma {:induction false} SplitJoin(parts: seq<string>, c: char)
    requires |parts| > 0
    requires forall i :: 0 <= i < |parts| ==> c !in parts[i]
    ensures Split(Join([c], parts), c) == parts
    decreases |parts|
  {
    if |parts| == 1 {
      SplitNoSeparator(parts[0], c);
    } else {
      SplitJoin(parts[1..], c);
      SplitPrefix(parts[0], c, Join([c], parts[1..]));
      assert [parts[0]] + parts[1..] == parts;
    }
  }

  predicate IsDigit(ch: char) {
    '0' <= ch <= '9'
  }

  predicate AllDigits(s: string) {
    forall i :: 0 <= i < |s| ==> IsDigit(s[i])
  }

  function DigitChar(d: nat): (ch: char)
    requires d < 10
    ensures IsDigit(ch)
  {
    ('0' as int + d) as char
  }

  function DigitValue(ch: char): (d: nat)
    requires IsDigit(ch)
    ensures d < 10 && DigitChar(d) == ch
  {
    ch as int - '0' as int
  }

  /** Decimal digits of `n` without leading zeros. */
  function NatToString(n: nat): (r: string)
    ensures |r| > 0 && AllDigits(r)
  {
    if n < 10 then [DigitChar(n)] else NatToString(n / 10) + [DigitChar(n % 10)]
  }

  /** strconv.Itoa: a minus sign for negative values, then the digits. */
  function IntToString(i: int): (r: string)
    ensures |r| > 0
    ensures ',' !in r && ' ' !in r
  {
    if i < 0 then "-" + NatToString(-i) else NatToString(i)
  }

  /** The value of a run of decimal digits; the empty run is 0. */
  function ParseNat(s: string): nat
    requires AllDigits(s)
  {
    if |s| == 0 then 0 else ParseNat(s[..|s| - 1]) * 10 + DigitValue(s[|s| - 1])
  }

  predicate IsDecimal(s: string) {
    if |s| > 0 && s[0] == '-' then AllDigits(s[1..]) else AllDigits(s)
  }

  function ParseInt(s: string): int
    requires IsDecimal(s)
  {
    if |s| > 0 && s[0] == '-' then -(ParseNat(s[1..]) as int) else ParseNat(s)
  }

  lemma {:induction false} ParseNatToString(n: nat)
    ensures ParseNat(NatToString(n)) == n
  {
    if n < 10 {
      assert NatToString(n)[..0] == [];
    } else {
      var s := NatToString(n / 10);
      assert (s + [DigitChar(n % 10)])[..|s|] == s;
      ParseNatToString(n / 10);
    }
  }

  /** Reading back a rendered integer gives the integer. */
  lemma ParseIntToString(i: int)
    ensures IsDecimal(IntToString(i)) && ParseInt(IntToString(i)) == i
  {
    if i < 0 {
      assert IntToString(i)[1..] == NatToString(-i);
      ParseNatToString(-i);
    } else {
      ParseNatToString(i);
    }
  }

  function Pow10(n: nat): (r: nat)
    ensures r >= 1
  {
    if n == 0 then 1 else 10 * Pow10(n - 1)
  }

  /** The last `width` decimal digits of `n`, zero-padded on the left. */
  function PadDigits(n: nat, width: nat): (r: string)
    ensures |r| == width && AllDigits(r)
  {
    if width == 0 then "" else PadDigits(n / 10, width - 1) + [DigitChar(n % 10)]
  }

  lemma {:induction false} PadDigitsRoundTrip(n: nat, width: nat)
    requires n < Pow10(width)
    ensures ParseNat(PadDigits(n, width)) == n
  {
    if width > 0 {
      var s := PadDigits(n / 10, width - 1);
      assert (s + [DigitChar(n % 10)])[..|s|] == s;
      assert n / 10 < Pow10(width - 1);
      PadDigitsRoundTrip(n / 10, width - 1);
    }
  }
}
