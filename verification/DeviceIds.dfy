/** What a device id is (asyncowfs/device.py, split_id), said without taking names apart: three hexadecimal numbers
    between dots; and that a scan finds the devices whose ids are printed so. */
module DeviceIds {
  import opened Text
  import opened Registry
  import opened ScanTree
  import T = Teardown
  import L = LeftBehind

  const LOWER_DIGITS := "0123456789abcdef"
  const UPPER_DIGITS := "0123456789ABCDEF"

  // ---------------------------------------------------------------- digits

  predicate Numeral(s: string) {
    s != "" && forall c :: c in s ==> c in LOWER_DIGITS || c in UPPER_DIGITS
  }

  lemma DigitMeaning(v: nat)
    requires v < 16
    ensures HexDigit(LOWER_DIGITS[v]) == v && HexDigit(UPPER_DIGITS[v]) == v
    ensures IsHexDigit(LOWER_DIGITS[v]) && IsHexDigit(UPPER_DIGITS[v])
    ensures UpperChar(LOWER_DIGITS[v]) == UPPER_DIGITS[v] && UpperChar(UPPER_DIGITS[v]) == UPPER_DIGITS[v]
  {
    assert v in {0, 1, 2, 3, 4, 5, 6, 7, 8, 9, 10, 11, 12, 13, 14, 15};
  }

  lemma DigitsListed(c: char)
    ensures IsHexDigit(c) <==> c in LOWER_DIGITS || c in UPPER_DIGITS
  {
    var v := HexDigit(c);
    assert IsHexDigit(c) ==> v < 16 && (c == LOWER_DIGITS[v] || c == UPPER_DIGITS[v]);
  }

  /** Capital letters: the letter at the same place of the alphabet; everything else stays. */
  lemma UpperMeaning(c: char)
    ensures var small, large := "abcdefghijklmnopqrstuvwxyz", "ABCDEFGHIJKLMNOPQRSTUVWXYZ";
            (forall i :: 0 <= i < 26 && small[i] == c ==> UpperChar(c) == large[i]) &&
            (c !in small ==> UpperChar(c) == c)
  {
    var small, large := "abcdefghijklmnopqrstuvwxyz", "ABCDEFGHIJKLMNOPQRSTUVWXYZ";
    forall i | 0 <= i < 26 ensures small[i] as int == 97 + i && large[i] as int == 65 + i {
    }
    if 'a' <= c <= 'z' {
      assert small[c as int - 97] == c;
    }
  }

  lemma NumeralIsHex(s: string)
    ensures Numeral(s) <==> IsHex(s)
  {
    hide IsHexDigit;
    forall c | c in s ensures IsHexDigit(c) <==> c in LOWER_DIGITS || c in UPPER_DIGITS {
      DigitsListed(c);
    }
    if Numeral(s) {
      assert forall i :: 0 <= i < |s| ==> s[i] in s;
    }
  }

  // ---------------------------------------------------------------- ids

  lemma IdOfParts(x: string, y: string, z: string)
    requires IsHex(x) && IsHex(y) && IsHex(z)
    ensures var name := x + "." + y + "." + z; IsId(name) && Family(name) == HexValue(x)
  {
    hide HexValue;
    L.IsIdOf(x, y, z);
    assert x + ['.'] + (y + ['.'] + z) == x + "." + y + "." + z;
  }

  /** A name is an id exactly if it is three numerals between dots. */
  lemma IsIdMeaning(name: string)
    ensures IsId(name) <==>
            exists x, y, z :: Numeral(x) && Numeral(y) && Numeral(z) && name == x + "." + y + "." + z
  {
    hide IsHex, Numeral;
    if IsId(name) {
      var parts := Split(name, '.');
      JoinSplit(name, '.');
      var x, y, z := parts[0], parts[1], parts[2];
      assert parts[1..][0] == y && parts[1..][1..][0] == z;
      assert Join(parts[1..][1..], '.') == z && Join(parts[1..], '.') == y + ['.'] + z;
      assert name == x + ['.'] + (y + ['.'] + z) == x + "." + y + "." + z;
      NumeralIsHex(x);
      NumeralIsHex(y);
      NumeralIsHex(z);
    }
    if x, y, z :| Numeral(x) && Numeral(y) && Numeral(z) && name == x + "." + y + "." + z {
      NumeralIsHex(x);
      NumeralIsHex(y);
      NumeralIsHex(z);
      IdOfParts(x, y, z);
    }
  }

  /** get_device raises exactly for a name that is neither registered nor three numerals between dots. */
  lemma NotADeviceIff(s: Reg, name: string)
    ensures DeviceOf(s, name).None? <==>
            name !in s.ids &&
            !exists x, y, z :: Numeral(x) && Numeral(y) && Numeral(z) && name == x + "." + y + "." + z
    ensures DeviceOf(s, name).Some? ==> DeviceOf(s, name).value == GetDevice(s, name)
  {
    hide IsId, Numeral, GetDevice;
    IsIdMeaning(name);
  }

  // ---------------------------------------------------------------- printed ids

  function Hex(n: nat, lower: bool): (s: string)
    ensures s != ""
  {
    var digit := if lower then LOWER_DIGITS[n % 16] else UPPER_DIGITS[n % 16];
    if n < 16 then [digit] else Hex(n / 16, lower) + [digit]
  }

  function PrintedId(a: nat, b: nat, c: nat, lower: bool): string {
    Hex(a, lower) + "." + Hex(b, lower) + "." + Hex(c, lower)
  }

  lemma {:induction false} HexMeaning(n: nat, lower: bool)
    ensures IsHex(Hex(n, lower)) && HexValue(Hex(n, lower)) == n && Upper(Hex(n, lower)) == Hex(n, false)
  {
    hide IsHexDigit, HexDigit, UpperChar;
    DigitMeaning(n % 16);
    var s := Hex(n, lower);
    var digit := s[|s| - 1];
    assert s == s[..|s| - 1] + [digit];
    if n < 16 {
      assert HexValue(s[..0]) == 0;
    } else {
      HexMeaning(n / 16, lower);
      assert s[..|s| - 1] == Hex(n / 16, lower);
      assert Upper(s) == Upper(s[..|s| - 1]) + [UpperChar(digit)];
    }
  }

  /** Zeros in front make no difference. */
  lemma {:induction false} LeadingZero(s: string)
    ensures HexValue("0" + s) == HexValue(s)
  {
    var t := "0" + s;
    if s != "" {
      LeadingZero(s[..|s| - 1]);
      assert t[..|t| - 1] == "0" + s[..|s| - 1];
    } else {
      assert t[..0] == "" && HexValue(t[..0]) == 0;
    }
  }

  /** Every id printed in hexadecimal is an id, its family is its first number, and its upper-case form is the one that
      is printed with capital letters. */
  lemma PrintedIsId(a: nat, b: nat, c: nat, lower: bool)
    ensures var name := PrintedId(a, b, c, lower);
            IsId(name) && Family(name) == a && Upper(name) == PrintedId(a, b, c, false) &&
            (IsCoupler(name) <==> a == 31) && Canonical(PrintedId(a, b, c, false))
  {
    hide IsHex, HexValue, Hex, IsId, Family;
    HexMeaning(a, lower);
    HexMeaning(b, lower);
    HexMeaning(c, lower);
    IdOfParts(Hex(a, lower), Hex(b, lower), Hex(c, lower));
    UpperParts(Hex(a, lower), Hex(b, lower), Hex(c, lower));
    HexMeaning(a, false);
    HexMeaning(b, false);
    HexMeaning(c, false);
    UpperParts(Hex(a, false), Hex(b, false), Hex(c, false));
  }

  lemma UpperParts(x: string, y: string, z: string)
    ensures Upper(x + "." + y + "." + z) == Upper(x) + "." + Upper(y) + "." + Upper(z)
  {
    var name := x + "." + y + "." + z;
    assert Upper(name) == Upper(x) + Upper(".") + Upper(y) + Upper(".") + Upper(z);
  }

  // ---------------------------------------------------------------- what a scan finds

  /** A way through couplers: which entry, with which id, and which of its two buses. */
  datatype Hop = Hop(entry: nat, b: nat, c: nat, aux: bool)

  function Follow(p: BusPath, d: Dir, hops: seq<Hop>): Option<(BusPath, Dir)>
    decreases |hops|
  {
    if hops == [] then Some((p, d))
    else
      var hop := hops[0];
      if d.Unreadable? || hop.entry >= |d.entries| then None
      else
        var e := d.entries[hop.entry];
        if e.name != PrintedId(31, hop.b, hop.c, false) then None
        else Follow(p + [e.name, if hop.aux then "aux" else "main"], if hop.aux then e.aux else e.main, hops[1..])
  }

  lemma {:induction false} EntryInTree(p: BusPath, es: seq<Entry>, i: nat)
    requires i < |es| && IsId(es[i].name)
    ensures (p, es[i].name) in EntryPairs(p, es)
    ensures IsCoupler(es[i].name) ==>
              TreePairs(Port(p, es[i].name, "main"), es[i].main) <= EntryPairs(p, es) &&
              TreePairs(Port(p, es[i].name, "aux"), es[i].aux) <= EntryPairs(p, es)
  {
    hide IsId, IsCoupler, TreePairs;
    if i > 0 {
      EntryInTree(p, es[1..], i - 1);
    }
  }

  lemma {:induction false} FollowedInTree(p: BusPath, d: Dir, hops: seq<Hop>)
    requires Follow(p, d, hops).Some?
    ensures var (q, f) := Follow(p, d, hops).value; TreePairs(q, f) <= TreePairs(p, d)
    decreases |hops|
  {
    hide IsId, IsCoupler, EntryPairs, PrintedId;
    if hops != [] {
      var hop := hops[0];
      var e := d.entries[hop.entry];
      PrintedIsId(31, hop.b, hop.c, false);
      EntryInTree(p, d.entries, hop.entry);
      var port := if hop.aux then "aux" else "main";
      assert p + [e.name, port] == Port(p, e.name, port);
      FollowedInTree(Port(p, e.name, port), if hop.aux then e.aux else e.main, hops[1..]);
    }
  }

  /** The scan of a fresh bus finds every device whose id is printed in a directory of a good tree, behind any couplers:
      it is registered under that id, located at that directory's bus, and listed there. */
  lemma PrintedIsFound(s: Reg, p: BusPath, d: Dir, hops: seq<Hop>, i: nat, a: nat, b: nat, c: nat)
    requires Valid(s) && FreshBus(s, p) && GoodDir(d) && Follow(p, d, hops).Some?
    requires var (q, f) := Follow(p, d, hops).value;
             f.Dir? && i < |f.entries| && f.entries[i].name == PrintedId(a, b, c, false)
    ensures var (q, id) := (Follow(p, d, hops).value.0, PrintedId(a, b, c, false));
            var (t, ok) := Scan(s, p, d);
            ok ==> ListsId(t, q, id) && id in t.ids && t.ids[id] < |t.objs| && t.objs[t.ids[id]].bus == Some(q)
  {
    hide Valid, FreshBus, GoodDir, Scan, ListsId, PrintedId, IsId, IsCoupler, Follow;
    var (q, f) := Follow(p, d, hops).value;
    PrintedIsId(a, b, c, false);
    EntryInTree(q, f.entries, i);
    FollowedInTree(p, d, hops);
    FreshScanFindsTheTree(s, p, d, q, PrintedId(a, b, c, false));
  }

  lemma NothingToLoad(ids: set<string>)
    ensures Loadable(Off, ids)
  {
  }

  lemma NewBus(name: string)
    ensures var s := GetTopBus(T.Empty(Off), name); Valid(s) && FreshBus(s, [name]) && s.structs == Off
  {
    hide Valid;
    T.EmptyValid(Off);
    GetTopBusValid(T.Empty(Off), name);
  }

  lemma OneIsFound(name: string, id: string)
    requires IsId(id) && Canonical(id) && !IsCoupler(id)
    ensures var (t, ok) := Scan(GetTopBus(T.Empty(Off), name), [name], Dir([Entry(id, Unreadable, Unreadable)]));
            ok && id in t.ids && t.ids[id] < |t.objs| && t.objs[t.ids[id]].bus == Some([name])
  {
    hide Valid, Scan, GoodDir, IsId, IsCoupler, Canonical, ListsId, Loadable, FreshBus, GetTopBus, DirIds;
    var s, d := GetTopBus(T.Empty(Off), name), Dir([Entry(id, Unreadable, Unreadable)]);
    NewBus(name);
    L.JustIfGood(id, true);
    assert L.JustIf(id, true) == d.entries;
    EntryInTree([name], d.entries, 0);
    NothingToLoad(DirIds(d));
    FreshScanFindsTheTree(s, [name], d, [name], id);
  }

  /** The bus of the mock server's example: a new service scans it and has the thermometer there. */
  lemma ExampleIsFound()
    ensures var s := GetTopBus(T.Empty(Off), "bus.0");
            var (t, ok) := Scan(s, ["bus.0"], Dir([Entry("10.345678.90", Unreadable, Unreadable)]));
            ok && "10.345678.90" in t.ids && t.ids["10.345678.90"] < |t.objs| &&
            t.objs[t.ids["10.345678.90"]].bus == Some(["bus.0"])
  {
    hide Scan, GetTopBus, IsId, HexValue, IsHex, Canonical, Split;
    L.HexDigits();
    NumeralIsHex("345678");
    NumeralIsHex("90");
    IdOfParts("10", "345678", "90");
    assert "10" + "." + "345678" + "." + "90" == "10.345678.90";
    L.PlainCanonical("10.345678.90");
    OneIsFound("bus.0", "10.345678.90");
  }
}
