/** Byte strings, Python's slices, and the join/split/decimal codecs that paths,
    directory listings and array values are built from. */
module Text {

  datatype Option<+T> = None | Some(value: T)

  type byte = x: int | 0 <= x < 256
  type bytes = seq<byte>

  const NUL: byte := 0
  const COMMA: byte := 44
  const DASH: byte := 45
  const SLASH: byte := 47
  const ZERO: byte := 48

  // ---------------------------------------------------------------- slices

  /** Where Python's slice bound i falls in a sequence of length n. */
  function Bound(n: nat, i: int): (k: nat)
    ensures k <= n
  {
    if i >= 0 then (if i <= n then i else n) else if n + i >= 0 then n + i else 0
  }

  /** s[:i] */
  function UpTo<T>(s: seq<T>, i: int): seq<T> {
    s[..Bound(|s|, i)]
  }

  /** s[i:] */
  function From<T>(s: seq<T>, i: int): seq<T> {
    s[Bound(|s|, i)..]
  }

  /** The two parts make up the whole. A bound from 0 up counts the items before it, a negative one those behind it, and
      a bound beyond either end is that end. */
  lemma SlicesMeaning<T>(s: seq<T>, i: int)
    ensures UpTo(s, i) + From(s, i) == s
    ensures 0 <= i <= |s| ==> |UpTo(s, i)| == i
    ensures -|s| <= i < 0 ==> |From(s, i)| == -i
    ensures i > |s| ==> From(s, i) == []
    ensures i < -|s| ==> UpTo(s, i) == []
  {
  }

  // ---------------------------------------------------------------- concatenation

  function Flatten<T>(parts: seq<seq<T>>): seq<T> {
    if parts == [] then [] else parts[0] + Flatten(parts[1..])
  }

  lemma {:induction false} FlattenAppend<T>(a: seq<seq<T>>, b: seq<seq<T>>)
    ensures Flatten(a + b) == Flatten(a) + Flatten(b)
  {
    if a == [] {
      assert a + b == b;
    } else {
      FlattenAppend(a[1..], b);
      assert (a + b)[1..] == a[1..] + b;
    }
  }

  // ---------------------------------------------------------------- join and split

  function Join<T>(parts: seq<seq<T>>, sep: T): seq<T> {
    if parts == [] then []
    else if |parts| == 1 then parts[0]
    else parts[0] + [sep] + Join(parts[1..], sep)
  }

  function Split<T(==)>(s: seq<T>, sep: T): (parts: seq<seq<T>>)
    ensures |parts| > 0
  {
    if s == [] then [[]]
    else
      var rest := Split(s[1..], sep);
      if s[0] == sep then [[]] + rest else [[s[0]] + rest[0]] + rest[1..]
  }

  /** A part without the separator, followed by the separator, is split off whole. */
  lemma {:induction false} SplitFirst<T>(part: seq<T>, sep: T, rest: seq<T>)
    requires sep !in part
    ensures Split(part + [sep] + rest, sep) == [part] + Split(rest, sep)
  {
    var s := part + [sep] + rest;
    if part == [] {
      assert s[1..] == rest;
    } else {
      SplitFirst(part[1..], sep, rest);
      assert s[1..] == part[1..] + [sep] + rest;
      assert part == [part[0]] + part[1..];
    }
  }

  lemma {:induction false} SplitNone<T>(part: seq<T>, sep: T)
    requires sep !in part
    ensures Split(part, sep) == [part]
  {
    if part != [] {
      SplitNone(part[1..], sep);
      assert part == [part[0]] + part[1..];
    }
  }

  /** Splitting undoes joining, for a non-empty list of separator-free parts. */
  lemma {:induction false} SplitJoin<T>(parts: seq<seq<T>>, sep: T)
    requires parts != []
    requires forall p :: p in parts ==> sep !in p
    ensures Split(Join(parts, sep), sep) == parts
  {
    if |parts| == 1 {
      SplitNone(parts[0], sep);
    } else {
      SplitFirst(parts[0], sep, Join(parts[1..], sep));
      SplitJoin(parts[1..], sep);
    }
  }

  /** Joining undoes splitting, for every sequence. */
  lemma {:induction false} JoinSplit<T>(s: seq<T>, sep: T)
    ensures Join(Split(s, sep), sep) == s
    ensures forall p :: p in Split(s, sep) ==> sep !in p
  {
    if s != [] {
      JoinSplit(s[1..], sep);
      var rest := Split(s[1..], sep);
      if s[0] == sep {
        assert ([[]] + rest)[1..] == rest;
      } else if |rest| > 1 {
        assert ([[s[0]] + rest[0]] + rest[1..])[1..] == rest[1..];
      }
    }
  }

  lemma {:induction false} JoinMembers<T>(parts: seq<seq<T>>, sep: T, x: T)
    requires x in Join(parts, sep)
    ensures x == sep || exists p :: p in parts && x in p
  {
    if |parts| > 1 && x !in parts[0] && x != sep {
      JoinMembers(parts[1..], sep, x);
    } else if |parts| == 1 {
      assert x in parts[0];
    }
  }

  function NonEmpty<T>(parts: seq<seq<T>>): seq<seq<T>> {
    if parts == [] then []
    else (if parts[0] == [] then [] else [parts[0]]) + NonEmpty(parts[1..])
  }

  lemma NonEmptyStep<T>(parts: seq<seq<T>>, i: nat)
    requires i < |parts|
    ensures NonEmpty(parts[i..]) == if parts[i] == [] then NonEmpty(parts[i + 1..])
            else [parts[i]] + NonEmpty(parts[i + 1..])
  {
  }

  lemma {:induction false} NonEmptyAll<T>(parts: seq<seq<T>>)
    requires forall i :: 0 <= i < |parts| ==> |parts[i]| > 0
    ensures NonEmpty(parts) == parts
  {
    if parts != [] {
      NonEmptyAll(parts[1..]);
    }
  }

  /** The parts that are not empty, in order. */
  lemma {:induction false} NonEmptyMeaning<T>(a: seq<seq<T>>, p: seq<T>)
    ensures NonEmpty<T>([]) == [] && NonEmpty(a + [p]) == NonEmpty(a) + if |p| == 0 then [] else [p]
  {
    if a == [] {
      assert a + [p] == [p] && [p][1..] == [];
    } else {
      NonEmptyMeaning(a[1..], p);
      assert (a + [p])[0] == a[0] && (a + [p])[1..] == a[1..] + [p];
    }
  }

  // ---------------------------------------------------------------- decimal integers

  function DecimalNat(n: nat): (s: bytes)
    ensures |s| > 0
    ensures forall b :: b in s ==> ZERO <= b <= ZERO + 9
  {
    if n < 10 then [ZERO + n] else DecimalNat(n / 10) + [ZERO + n % 10]
  }

  /** str(n).encode() */
  function Decimal(n: int): bytes {
    if n < 0 then [DASH] + DecimalNat(-n) else DecimalNat(n)
  }

  function ParseNat(s: bytes): Option<nat> {
    if s == [] then None
    else
      var d := s[|s| - 1];
      if !(ZERO <= d <= ZERO + 9) then None
      else if |s| == 1 then Some(d - ZERO)
      else
        var high := ParseNat(s[..|s| - 1]);
        if high.None? then None else Some(10 * high.value + (d - ZERO))
  }

  /** int(s), on the plain decimal forms; None stands for ValueError. */
  function ParseInt(s: bytes): Option<int> {
    if s != [] && s[0] == DASH then
      var n := ParseNat(s[1..]);
      if n.None? then None else Some(-(n.value as int))
    else
      var n := ParseNat(s);
      if n.None? then None else Some(n.value)
  }

  lemma {:induction false} ParseDecimalNat(n: nat)
    ensures ParseNat(DecimalNat(n)) == Some(n)
  {
    if n >= 10 {
      ParseDecimalNat(n / 10);
      var s := DecimalNat(n);
      assert s[..|s| - 1] == DecimalNat(n / 10);
    }
  }

  /** Parsing undoes printing for every integer, and printing never yields a comma or a slash. */
  lemma ParseDecimal(n: int)
    ensures ParseInt(Decimal(n)) == Some(n)
    ensures Decimal(n) != [] && COMMA !in Decimal(n) && SLASH !in Decimal(n) && NUL !in Decimal(n)
  {
    hide DecimalNat, ParseNat;
    if n < 0 {
      ParseDecimalNat(-n);
      assert Decimal(n)[1..] == DecimalNat(-n);
    } else {
      ParseDecimalNat(n);
      assert DecimalNat(n)[0] in DecimalNat(n);
    }
  }

  function TenTo(n: nat): nat {
    if n == 0 then 1 else 10 * TenTo(n - 1)
  }

  predicate AllDigits(s: bytes) {
    forall i :: 0 <= i < |s| ==> 48 <= s[i] <= 57
  }

  /** What digits stand for, by their places. */
  function PlaceValue(s: bytes): nat
    requires AllDigits(s)
  {
    if s == [] then 0 else (s[0] - 48) * TenTo(|s| - 1) + PlaceValue(s[1..])
  }

  lemma TimesTen(k: int, t: int)
    ensures k * (10 * t) == 10 * (k * t)
  {
  }

  lemma {:induction false} PlaceValueNext(s: bytes, d: byte)
    requires AllDigits(s) && 48 <= d <= 57
    ensures PlaceValue(s + [d]) == 10 * PlaceValue(s) + (d - 48)
  {
    if s == [] {
      assert s + [d] == [d] && [d][1..] == [];
    } else {
      PlaceValueNext(s[1..], d);
      TimesTen(s[0] - 48, TenTo(|s| - 1));
      assert (s + [d])[0] == s[0] && (s + [d])[1..] == s[1..] + [d];
    }
  }

  lemma {:induction false} DecimalNatMeaning(n: nat)
    ensures var s := DecimalNat(n); AllDigits(s) && PlaceValue(s) == n && (|s| > 1 ==> s[0] != 48)
  {
    if n >= 10 {
      DecimalNatMeaning(n / 10);
      PlaceValueNext(DecimalNat(n / 10), ZERO + n % 10);
    } else {
      assert [ZERO + n][1..] == [];
    }
  }

  /** Decimal text: the digits have the number's value, there is no leading zero, and the sign is a dash in front. */
  lemma DecimalMeaning(n: int)
    ensures n >= 0 ==>
              AllDigits(Decimal(n)) && PlaceValue(Decimal(n)) == n && (|Decimal(n)| > 1 ==> Decimal(n)[0] != 48)
    ensures n < 0 ==> Decimal(n) == [45] + Decimal(-n)
  {
    DecimalNatMeaning(if n < 0 then -n else n);
  }

  lemma OneDigit(d: byte)
    requires 48 <= d <= 57
    ensures PlaceValue([d]) == d - 48
  {
    assert [d][1..] == [];
  }

  lemma {:induction false} ParseNatMeaning(s: bytes)
    ensures ParseNat(s).Some? <==> s != [] && AllDigits(s)
    ensures ParseNat(s).Some? ==> ParseNat(s).value == PlaceValue(s)
  {
    hide PlaceValue, TenTo;
    if s != [] {
      var init, d := s[..|s| - 1], s[|s| - 1];
      assert s == init + [d];
      if |s| == 1 {
        assert init == [] && s == [d];
        if 48 <= d <= 57 {
          OneDigit(d);
        }
      } else {
        ParseNatMeaning(init);
        if AllDigits(s) {
          PlaceValueNext(init, d);
        }
      }
    }
  }

  /** int(): exactly the texts of at least one digit, with or without a dash in front, and their values. */
  lemma ParseIntMeaning(s: bytes)
    ensures var digits := if s != [] && s[0] == 45 then s[1..] else s;
            (ParseInt(s).Some? <==> digits != [] && AllDigits(digits)) &&
            (ParseInt(s).Some? ==>
               ParseInt(s).value == if s[0] == 45 then -(PlaceValue(digits) as int) else PlaceValue(digits))
  {
    ParseNatMeaning(if s != [] && s[0] == DASH then s[1..] else s);
  }
}
