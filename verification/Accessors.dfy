/** Device attributes (asyncowfs/device.py): how values, lists of values and array elements are written into and read
    from attributes, and which accessors a device class gets from the structure that the server publishes. */
module Accessors {
  import opened Text

  // ---------------------------------------------------------------- values

  datatype Kind = Number | Flag | Raw

  datatype Value = Num(n: int) | Truth(b: bool) | Bin(bs: bytes)

  predicate Fits(k: Kind, v: Value) {
    match k case Number => v.Num? case Flag => v.Truth? case Raw => v.Bin?
  }

  /** _WValue.conv */
  function Print(v: Value): bytes {
    match v
    case Num(n) => Decimal(n)
    case Truth(b) => if b then [ZERO + 1] else [ZERO]
    case Bin(bs) => bs
  }

  /** _RValue.conv; None stands for the ValueError. */
  function Parse(k: Kind, text: bytes): Option<Value> {
    match k
    case Number => (match ParseInt(text) case None => None case Some(n) => Some(Num(n)))
    case Flag => (match ParseInt(text) case None => None case Some(n) => Some(Truth(n != 0)))
    case Raw => Some(Bin(text))
  }

  lemma ScalarRoundTrip(k: Kind, v: Value)
    requires Fits(k, v)
    ensures Parse(k, Print(v)) == Some(v) && (!v.Bin? ==> COMMA !in Print(v))
  {
    match v
    case Num(n) => ParseDecimal(n);
    case Truth(b) => ParseDecimal(if b then 1 else 0);
    case Bin(bs) =>
  }

  /** A flag is written as one digit, and any number but 0 is read as true. */
  lemma FlagText(text: bytes)
    ensures Print(Truth(true)) == [49] && Print(Truth(false)) == [48]
    ensures Parse(Flag, text).Some? <==> ParseInt(text).Some?
    ensures ParseInt(text).Some? ==> Parse(Flag, text) == Some(Truth(ParseInt(text).value != 0))
  {
  }

  function PrintEach(vs: seq<Value>): seq<bytes> {
    if vs == [] then [] else [Print(vs[0])] + PrintEach(vs[1..])
  }

  /** MultiSetter: the elements, joined with commas. */
  function PrintAll(vs: seq<Value>): bytes {
    Join(PrintEach(vs), COMMA)
  }

  function ParseEach(k: Kind, parts: seq<bytes>): Option<seq<Value>> {
    if parts == [] then Some([])
    else
      var v, rest := Parse(k, parts[0]), ParseEach(k, parts[1..]);
      if v.None? || rest.None? then None else Some([v.value] + rest.value)
  }

  /** MultiGetter */
  function ParseAll(k: Kind, text: bytes): Option<seq<Value>> {
    ParseEach(k, Split(text, COMMA))
  }

  lemma {:induction false} ParsePrintEach(k: Kind, vs: seq<Value>)
    requires forall v :: v in vs ==> Fits(k, v)
    ensures ParseEach(k, PrintEach(vs)) == Some(vs)
    ensures k != Raw ==> forall p :: p in PrintEach(vs) ==> COMMA !in p
  {
    if vs != [] {
      assert vs[0] in vs && vs == [vs[0]] + vs[1..];
      ScalarRoundTrip(k, vs[0]);
      ParsePrintEach(k, vs[1..]);
      var parts := PrintEach(vs);
      assert parts[1..] == PrintEach(vs[1..]) && parts[0] == Print(vs[0]);
    }
  }

  lemma {:induction false} ParseEachShape(k: Kind, parts: seq<bytes>)
    ensures ParseEach(k, parts).Some? ==> |ParseEach(k, parts).value| == |parts|
    ensures k == Raw && ParseEach(k, parts).Some? ==> PrintEach(ParseEach(k, parts).value) == parts
  {
    if parts != [] {
      ParseEachShape(k, parts[1..]);
      var r := ParseEach(k, parts);
      if r.Some? {
        assert r.value[1..] == ParseEach(k, parts[1..]).value;
      }
    }
  }

  /** A list comes back exactly when it is not empty and none of its elements is written with a comma, which numbers
      and flags never are. */
  lemma ListRoundTripIff(k: Kind, vs: seq<Value>)
    requires forall v :: v in vs ==> Fits(k, v)
    ensures ParseAll(k, PrintAll(vs)) == Some(vs) <==> vs != [] && forall p :: p in PrintEach(vs) ==> COMMA !in p
    ensures k != Raw ==> (ParseAll(k, PrintAll(vs)) == Some(vs) <==> vs != [])
  {
    var parts := PrintEach(vs);
    ParsePrintEach(k, vs);
    var back := Split(PrintAll(vs), COMMA);
    if vs != [] && forall p :: p in parts ==> COMMA !in p {
      SplitJoin(parts, COMMA);
    }
    if ParseAll(k, PrintAll(vs)) == Some(vs) {
      ParseEachShape(k, back);
      JoinSplit(PrintAll(vs), COMMA);
    }
  }

  /** The text of a list: its elements' texts between commas; reading takes each part by itself, in order. */
  lemma {:induction false} ListText(k: Kind, vs: seq<Value>, text: bytes)
    ensures |PrintEach(vs)| == |vs| && forall i :: 0 <= i < |vs| ==> PrintEach(vs)[i] == Print(vs[i])
    ensures vs != [] && (forall p :: p in PrintEach(vs) ==> 44 !in p) ==> Split(PrintAll(vs), 44) == PrintEach(vs)
    ensures ParseAll(k, text).Some? <==> forall p :: p in Split(text, 44) ==> Parse(k, p).Some?
    ensures ParseAll(k, text).Some? ==>
              var parts, r := Split(text, 44), ParseAll(k, text).value;
              |r| == |parts| && forall i :: 0 <= i < |r| ==> Some(r[i]) == Parse(k, parts[i])
  {
    hide Print, Parse;
    PrintEachMeaning(vs);
    ParseEachMeaning(k, Split(text, COMMA));
    if vs != [] && forall p :: p in PrintEach(vs) ==> COMMA !in p {
      SplitJoin(PrintEach(vs), COMMA);
    }
  }

  lemma {:induction false} PrintEachMeaning(vs: seq<Value>)
    ensures |PrintEach(vs)| == |vs| && forall i :: 0 <= i < |vs| ==> PrintEach(vs)[i] == Print(vs[i])
  {
    if vs != [] {
      PrintEachMeaning(vs[1..]);
    }
  }

  lemma {:induction false} ParseEachMeaning(k: Kind, parts: seq<bytes>)
    ensures ParseEach(k, parts).Some? <==> forall p :: p in parts ==> Parse(k, p).Some?
    ensures ParseEach(k, parts).Some? ==>
              var r := ParseEach(k, parts).value;
              |r| == |parts| && forall i :: 0 <= i < |r| ==> Some(r[i]) == Parse(k, parts[i])
  {
    hide Parse;
    if parts != [] {
      ParseEachMeaning(k, parts[1..]);
      assert parts == [parts[0]] + parts[1..];
    }
  }

  // ---------------------------------------------------------------- array elements

  const DOT: byte := 46
  const LETTER_A: byte := 65
  const ALL: bytes := [65, 76, 76]

  predicate InAlphabet(i: int) {
    0 <= LETTER_A + i < 128
  }

  /** str(i), or chr(ord("A") + i) */
  function Index(num: bool, i: int): bytes
    requires num || InAlphabet(i)
  {
    if num then Decimal(i) else [LETTER_A + i]
  }

  /** The last component names the element. */
  function WithSuffix(path: seq<bytes>, suffix: bytes): seq<bytes>
    requires path != []
  {
    path[..|path| - 1] + [path[|path| - 1] + [DOT] + suffix]
  }

  /** The last component, a dot, and the index in digits, the letter at its place of the alphabet, or ALL. */
  lemma ElementText(path: seq<bytes>, last: bytes, i: int)
    ensures WithSuffix(path + [last], Index(true, i)) == path + [last + [46] + Decimal(i)]
    ensures InAlphabet(i) ==> WithSuffix(path + [last], Index(false, i)) == path + [last + [46] + [65 + i]]
    ensures WithSuffix(path + [last], ALL) == path + [last + [46, 65, 76, 76]]
  {
    assert last + [DOT] + ALL == last + [46, 65, 76, 76];
  }

  /** Distinct indices lead to distinct paths, none of which is the path of the whole array. */
  lemma ElementPathsDistinct(path: seq<bytes>, num: bool, i: int, j: int)
    requires path != [] && (num || (InAlphabet(i) && InAlphabet(j)))
    ensures WithSuffix(path, Index(num, i)) == WithSuffix(path, Index(num, j)) <==> i == j
    ensures WithSuffix(path, Index(num, i)) != WithSuffix(path, ALL)
  {
    SameSuffix(path, Index(num, i), Index(num, j));
    SameSuffix(path, Index(num, i), ALL);
    if num {
      ParseDecimal(i);
      ParseDecimal(j);
      assert ParseInt(ALL).None?;
    }
  }

  lemma SameSuffix(path: seq<bytes>, a: bytes, b: bytes)
    requires path != []
    ensures WithSuffix(path, a) == WithSuffix(path, b) ==> a == b
  {
    var last := path[|path| - 1];
    if WithSuffix(path, a) == WithSuffix(path, b) {
      assert WithSuffix(path, a)[|path| - 1] == last + [DOT] + a && WithSuffix(path, b)[|path| - 1] == last + [DOT] + b;
      assert a == (last + [DOT] + a)[|last| + 1..] && b == (last + [DOT] + b)[|last| + 1..];
    }
  }

  // ---------------------------------------------------------------- generated classes

  /** What the server publishes for a device family: leaves with a description, and folders. */
  datatype Item = Item(name: bytes, node: Node)
  datatype Node = Description(text: bytes) | Folder(items: seq<Item>)

  datatype Shape = Scalar | Element(num: bool) | Whole

  datatype Access = Access(path: seq<bytes>, typ: bytes, shape: Shape)

  /** A generated class: its sub-directories, its direct attributes, and its get_ and set_ functions. */
  datatype Class = Class(
    subs: map<bytes, Class>,
    direct: map<bytes, Access>,
    getters: map<bytes, Access>,
    setters: map<bytes, Access>
  )

  /** The attributes that a device class, and the class of a sub-directory, has before. */
  datatype Given = Given(device: set<bytes>, folder: set<bytes>)

  function Own(given: Given, sub: seq<bytes>): set<bytes> {
    if sub == [] then given.device else given.folder
  }

  const RO: bytes := [114, 111]
  const WO: bytes := [119, 111]
  const RW: bytes := [114, 119]

  datatype Leaf = Leaf(typ: bytes, count: int, mode: bytes)

  /** The setup vector; None stands for a vector that is too short or not numeric where it must be. */
  function ParseLeaf(text: bytes): Option<Leaf> {
    var v := Split(text, COMMA);
    if |v| < 5 || ParseInt(v[1]).None? || ParseInt(v[2]).None? || ParseInt(v[4]).None? then None
    else Some(Leaf(v[0], ParseInt(v[1]).value, v[3]))
  }

  /** An array is published under the name of its first element. */
  function ArrayForm(name: bytes): Option<bool> {
    if |name| >= 2 && name[|name| - 2..] == [DOT, ZERO] then Some(true)
    else if |name| >= 2 && name[|name| - 2..] == [DOT, LETTER_A] then Some(false)
    else None
  }

  function BaseName(name: bytes): bytes {
    if ArrayForm(name).None? then name else name[..|name| - 2]
  }

  const SUFFIX_ALL: bytes := [95, 97, 108, 108]

  function Accessible(mode: bytes, write: bool): bool {
    mode == RW || (if write then mode == WO else mode == RO)
  }

  const GET: bytes := [103, 101, 116, 95]
  const SET: bytes := [115, 101, 116, 95]
  const CLS: bytes := [95, 99, 108, 115, 95]

  /** The class has such a function or sub-directory class. */
  predicate Generated(c: Class, name: bytes) {
    (GET <= name && name[|GET|..] in c.getters) || (SET <= name && name[|SET|..] in c.setters) ||
    (CLS <= name && name[|CLS|..] in c.subs)
  }

  /** hasattr. It is false for the direct attribute of an array: ArrayValue raises an AttributeError when it is looked
      up in the class. */
  predicate Has(c: Class, own: set<bytes>, name: bytes) {
    name in own || Generated(c, name) || (name in c.direct && !c.direct[name].shape.Element?)
  }

  function SetDirect(c: Class, own: set<bytes>, name: bytes, a: Access): Class {
    if Has(c, own, name) then c else c.(direct := c.direct[name := a])
  }

  function SetGetter(c: Class, name: bytes, a: Access): Class {
    c.(getters := c.getters[name := a], direct := c.direct - {GET + name})
  }

  function SetSetter(c: Class, name: bytes, a: Access): Class {
    c.(setters := c.setters[name := a], direct := c.direct - {SET + name})
  }

  function SetSub(c: Class, name: bytes, inner: Class): Class {
    c.(subs := c.subs[name := inner], direct := c.direct - {CLS + name})
  }

  /** What can be read gets a direct attribute and a get_ function, what can be written a set_ function. */
  function WithAccess(c: Class, own: set<bytes>, mode: bytes, name: bytes, a: Access): Class {
    var read := if Accessible(mode, false) then SetGetter(SetDirect(c, own, name, a), name, a) else c;
    if Accessible(mode, true) then SetSetter(read, name, a) else read
  }

  /** One entry of the structure; entries with a repeat count get no accessor. */
  function WithLeaf(c: Class, own: set<bytes>, name: bytes, leaf: Leaf, sub: seq<bytes>): Class {
    var base := BaseName(name);
    var path := sub + [base];
    if leaf.count != 0 then c
    else match ArrayForm(name)
      case None => WithAccess(c, own, leaf.mode, base, Access(path, leaf.typ, Scalar))
      case Some(num) =>
        WithAccess(WithAccess(c, own, leaf.mode, base, Access(path, leaf.typ, Element(num))),
                   own, leaf.mode, base + SUFFIX_ALL, Access(path, leaf.typ, Whole))
  }

  /** setup_accessors; a broken description anywhere breaks it off. */
  function Setup(items: seq<Item>, sub: seq<bytes>, given: Given): Option<Class>
    decreases items, 0
  {
    if items == [] then Some(Class(map[], map[], map[], map[]))
    else
      var before := Setup(items[..|items| - 1], sub, given);
      if before.None? then None else WithItem(before.value, items[|items| - 1], sub, given)
  }

  function WithItem(c: Class, item: Item, sub: seq<bytes>, given: Given): Option<Class>
    decreases item, 1
  {
    match item.node
    case Folder(items) =>
      var inner := Setup(items, sub + [item.name], given);
      if inner.None? then None else Some(SetSub(c, item.name, inner.value))
    case Description(text) =>
      var leaf := ParseLeaf(text);
      if leaf.None? then None else Some(WithLeaf(c, Own(given, sub), item.name, leaf.value, sub))
  }

  /** The same by a loop, as the code does it. */
  method SetupAccessors(items: seq<Item>, sub: seq<bytes>, given: Given) returns (made: Option<Class>)
    ensures made == Setup(items, sub, given)
    decreases items
  {
    var c := Class(map[], map[], map[], map[]);
    var n := 0;
    while n < |items|
      invariant n <= |items|
      invariant Setup(items[..n], sub, given) == Some(c)
    {
      var item := items[n];
      assert items[..n + 1][..n] == items[..n] && items[..n + 1][n] == item;
      match item.node {
        case Folder(inner) =>
          var sc := SetupAccessors(inner, sub + [item.name], given);
          if sc.None? {
            BrokenPrefix(items, n + 1, sub, given);
            return None;
          }
          c := SetSub(c, item.name, sc.value);
        case Description(text) =>
          var leaf := ParseLeaf(text);
          if leaf.None? {
            BrokenPrefix(items, n + 1, sub, given);
            return None;
          }
          c := WithLeaf(c, Own(given, sub), item.name, leaf.value, sub);
      }
      n := n + 1;
    }
    assert items[..n] == items;
    made := Some(c);
  }

  lemma {:induction false} BrokenPrefix(items: seq<Item>, n: nat, sub: seq<bytes>, given: Given)
    requires n <= |items| && Setup(items[..n], sub, given).None?
    ensures Setup(items, sub, given).None?
    decreases |items|
  {
    if n < |items| {
      assert items[..|items| - 1][..n] == items[..n];
      BrokenPrefix(items[..|items| - 1], n, sub, given);
    } else {
      assert items[..n] == items;
    }
  }

  /** Every description, at any depth, can be read. */
  predicate Unbroken(items: seq<Item>) {
    forall item :: item in items ==>
      match item.node
      case Folder(inner) => Unbroken(inner)
      case Description(text) => ParseLeaf(text).Some?
  }

  lemma {:induction false} SetupSucceedsIff(items: seq<Item>, sub: seq<bytes>, given: Given)
    ensures Setup(items, sub, given).Some? <==> Unbroken(items)
  {
    hide ParseLeaf, WithLeaf;
    if items != [] {
      var init, last := items[..|items| - 1], items[|items| - 1];
      assert items == init + [last];
      SetupSucceedsIff(init, sub, given);
      if last.node.Folder? {
        SetupSucceedsIff(last.node.items, sub + [last.name], given);
      }
    }
  }

  // ---------------------------------------------------------------- the structure, looked up directly

  /** What one entry provides under an attribute name. */
  function Provides(item: Item, sub: seq<bytes>, attr: bytes, write: bool): Option<Access> {
    if item.node.Folder? then None
    else
      var leaf := ParseLeaf(item.node.text);
      if leaf.None? || leaf.value.count != 0 || !Accessible(leaf.value.mode, write) then None
      else
        var base, path := BaseName(item.name), sub + [BaseName(item.name)];
        match ArrayForm(item.name)
        case None => if attr == base then Some(Access(path, leaf.value.typ, Scalar)) else None
        case Some(num) =>
          if attr == base then Some(Access(path, leaf.value.typ, Element(num)))
          else if attr == base + SUFFIX_ALL then Some(Access(path, leaf.value.typ, Whole))
          else None
  }

  /** The last entry that provides the attribute. */
  function Provider(items: seq<Item>, sub: seq<bytes>, attr: bytes, write: bool): Option<Access> {
    if items == [] then None
    else
      var last := Provides(items[|items| - 1], sub, attr, write);
      if last.Some? then last else Provider(items[..|items| - 1], sub, attr, write)
  }

  /** The last folder of a name. */
  function FolderOf(items: seq<Item>, name: bytes): Option<seq<Item>> {
    if items == [] then None
    else
      var last := items[|items| - 1];
      if last.node.Folder? && last.name == name then Some(last.node.items) else FolderOf(items[..|items| - 1], name)
  }

  function Resolve(items: seq<Item>, names: seq<bytes>): Option<seq<Item>>
    decreases |names|
  {
    if names == [] then Some(items)
    else
      var folder := FolderOf(items, names[0]);
      if folder.None? then None else Resolve(folder.value, names[1..])
  }

  /** Walking through the sub-directories of a generated class. */
  function Walk(c: Class, names: seq<bytes>): Option<Class>
    decreases |names|
  {
    if names == [] then Some(c) else if names[0] !in c.subs then None else Walk(c.subs[names[0]], names[1..])
  }

  lemma AccessKeeps(c: Class, own: set<bytes>, mode: bytes, name: bytes, a: Access)
    ensures var d := WithAccess(c, own, mode, name, a);
            d.subs == c.subs && d.getters == (if Accessible(mode, false) then c.getters[name := a] else c.getters) &&
            d.setters == if Accessible(mode, true) then c.setters[name := a] else c.setters
  {
    hide Has, Accessible;
  }

  lemma LeafKeeps(c: Class, own: set<bytes>, item: Item, leaf: Leaf, sub: seq<bytes>, attr: bytes, write: bool)
    requires item.node.Description? && ParseLeaf(item.node.text) == Some(leaf)
    ensures var d := WithLeaf(c, own, item.name, leaf, sub);
            var p, m, n := Provides(item, sub, attr, write), if write then c.setters else c.getters,
                           if write then d.setters else d.getters;
            d.subs == c.subs && (attr in n <==> attr in m || p.Some?) &&
            (attr in n ==> n[attr] == if p.Some? then p.value else m[attr])
  {
    hide ParseLeaf, WithAccess, Accessible;
    var base := BaseName(item.name);
    var path := sub + [base];
    assert base != base + SUFFIX_ALL;
    if leaf.count == 0 {
      match ArrayForm(item.name)
      case None => AccessKeeps(c, own, leaf.mode, base, Access(path, leaf.typ, Scalar));
      case Some(num) =>
        var element := Access(path, leaf.typ, Element(num));
        AccessKeeps(c, own, leaf.mode, base, element);
        AccessKeeps(WithAccess(c, own, leaf.mode, base, element), own, leaf.mode, base + SUFFIX_ALL,
                    Access(path, leaf.typ, Whole));
    }
  }

  lemma {:induction false} SubsFollow(items: seq<Item>, sub: seq<bytes>, given: Given, name: bytes)
    requires Setup(items, sub, given).Some?
    ensures var c := Setup(items, sub, given).value;
            (name in c.subs <==> FolderOf(items, name).Some?) &&
            (name in c.subs ==> Setup(FolderOf(items, name).value, sub + [name], given) == Some(c.subs[name]))
  {
    hide WithLeaf, ParseLeaf, Provides;
    if items != [] {
      var init, item := items[..|items| - 1], items[|items| - 1];
      SubsFollow(init, sub, given, name);
      if item.node.Description? {
        var leaf := ParseLeaf(item.node.text).value;
        LeafKeeps(Setup(init, sub, given).value, Own(given, sub), item, leaf, sub, name, false);
      }
    }
  }

  lemma {:induction false} FunctionsFollow(items: seq<Item>, sub: seq<bytes>, given: Given, attr: bytes, write: bool)
    requires Setup(items, sub, given).Some?
    ensures var c := Setup(items, sub, given).value;
            var m := if write then c.setters else c.getters;
            Provider(items, sub, attr, write) == if attr in m then Some(m[attr]) else None
  {
    hide WithLeaf, ParseLeaf, Provides;
    if items != [] {
      var init, item := items[..|items| - 1], items[|items| - 1];
      FunctionsFollow(init, sub, given, attr, write);
      if item.node.Description? {
        var leaf := ParseLeaf(item.node.text).value;
        LeafKeeps(Setup(init, sub, given).value, Own(given, sub), item, leaf, sub, attr, write);
      } else {
        FolderProvides(item, sub, attr, write);
      }
    }
  }

  lemma FolderProvides(item: Item, sub: seq<bytes>, attr: bytes, write: bool)
    requires item.node.Folder?
    ensures Provides(item, sub, attr, write).None?
  {
  }

  // ---------------------------------------------------------------- direct attributes

  /** The entry provides the attribute, and not as an array element's. */
  predicate Plain(item: Item, sub: seq<bytes>, attr: bytes) {
    var a := Provides(item, sub, attr, false);
    a.Some? && !a.value.shape.Element?
  }

  /** The first plain entry, or else the last one. */
  ghost predicate Chosen(items: seq<Item>, sub: seq<bytes>, attr: bytes, a: Access) {
    exists i ::
      0 <= i < |items| && Provides(items[i], sub, attr, false) == Some(a) &&
      (forall j :: 0 <= j < i ==> !Plain(items[j], sub, attr)) &&
      (a.shape.Element? ==> forall j :: i < j < |items| ==> Provides(items[j], sub, attr, false).None?)
  }

  ghost predicate DirectFollows(c: Class, own: set<bytes>, items: seq<Item>, sub: seq<bytes>, attr: bytes) {
    (attr in c.direct <==>
       attr !in own && !Generated(c, attr) && exists item :: item in items && Provides(item, sub, attr, false).Some?) &&
    (attr in c.direct ==> Chosen(items, sub, attr, c.direct[attr]))
  }

  /** What one entry does to a direct attribute. */
  ghost predicate Changes(c: Class, d: Class, own: set<bytes>, given: Option<Access>, attr: bytes) {
    (Generated(c, attr) ==> Generated(d, attr)) &&
    (attr in d.direct <==> !Generated(d, attr) && (attr in c.direct || (given.Some? && attr !in own))) &&
    (attr in d.direct ==>
       Some(d.direct[attr]) ==
       if attr in c.direct && (given.None? || !c.direct[attr].shape.Element?) then Some(c.direct[attr]) else given)
  }

  lemma GeneratedBy(c: Class, own: set<bytes>, name: bytes, a: Access, inner: Class, attr: bytes)
    ensures Generated(SetDirect(c, own, name, a), attr) <==> Generated(c, attr)
    ensures Generated(SetGetter(c, name, a), attr) <==> Generated(c, attr) || attr == GET + name
    ensures Generated(SetSetter(c, name, a), attr) <==> Generated(c, attr) || attr == SET + name
    ensures Generated(SetSub(c, name, inner), attr) <==> Generated(c, attr) || attr == CLS + name
  {
    hide Has;
    assert (GET + name)[|GET|..] == name && (SET + name)[|SET|..] == name && (CLS + name)[|CLS|..] == name;
    assert GET <= attr ==> attr == GET + attr[|GET|..];
    assert SET <= attr ==> attr == SET + attr[|SET|..];
    assert CLS <= attr ==> attr == CLS + attr[|CLS|..];
  }

  lemma DirectChanges(c: Class, own: set<bytes>, name: bytes, a: Access, attr: bytes)
    requires attr in c.direct ==> !Generated(c, attr) && attr !in own
    ensures Changes(c, SetDirect(c, own, name, a), own, if attr == name then Some(a) else None, attr)
  {
    hide Generated;
    GeneratedBy(c, own, name, a, Class(map[], map[], map[], map[]), attr);
  }

  lemma AccessChanges(c: Class, own: set<bytes>, mode: bytes, name: bytes, a: Access, attr: bytes)
    requires attr in c.direct ==> !Generated(c, attr) && attr !in own
    ensures Changes(c, WithAccess(c, own, mode, name, a), own,
                    if attr == name && Accessible(mode, false) then Some(a) else None, attr)
  {
    hide Generated, Accessible, SetDirect;
    var inner := Class(map[], map[], map[], map[]);
    var direct := SetDirect(c, own, name, a);
    var read := if Accessible(mode, false) then SetGetter(direct, name, a) else c;
    DirectChanges(c, own, name, a, attr);
    GeneratedBy(direct, own, name, a, inner, attr);
    GeneratedBy(read, own, name, a, inner, attr);
  }

  lemma LeafChanges(c: Class, own: set<bytes>, item: Item, leaf: Leaf, sub: seq<bytes>, attr: bytes)
    requires (attr in c.direct ==> !Generated(c, attr) && attr !in own) && item.node.Description?
    requires ParseLeaf(item.node.text) == Some(leaf)
    ensures Changes(c, WithLeaf(c, own, item.name, leaf, sub), own, Provides(item, sub, attr, false), attr)
  {
    hide ParseLeaf, WithAccess, Accessible, Generated;
    var base := BaseName(item.name);
    var path := sub + [base];
    assert base != base + SUFFIX_ALL;
    if leaf.count == 0 {
      match ArrayForm(item.name)
      case None => AccessChanges(c, own, leaf.mode, base, Access(path, leaf.typ, Scalar), attr);
      case Some(num) =>
        var element := Access(path, leaf.typ, Element(num));
        AccessChanges(c, own, leaf.mode, base, element, attr);
        AccessChanges(WithAccess(c, own, leaf.mode, base, element), own, leaf.mode, base + SUFFIX_ALL,
                      Access(path, leaf.typ, Whole), attr);
    }
  }

  lemma SubChanges(c: Class, own: set<bytes>, name: bytes, inner: Class, attr: bytes)
    requires attr in c.direct ==> !Generated(c, attr) && attr !in own
    ensures Changes(c, SetSub(c, name, inner), own, None, attr)
  {
    hide Generated, Has;
    GeneratedBy(c, own, name, Access([], [], Scalar), inner, attr);
  }

  lemma ChosenNext(items: seq<Item>, item: Item, sub: seq<bytes>, attr: bytes, a: Access)
    requires Chosen(items, sub, attr, a)
    requires Provides(item, sub, attr, false).None? || !a.shape.Element?
    ensures Chosen(items + [item], sub, attr, a)
  {
    hide Provides;
    var i :|
      0 <= i < |items| && Provides(items[i], sub, attr, false) == Some(a) &&
      (forall j :: 0 <= j < i ==> !Plain(items[j], sub, attr)) &&
      (a.shape.Element? ==> forall j :: i < j < |items| ==> Provides(items[j], sub, attr, false).None?);
    assert (items + [item])[i] == items[i];
  }

  lemma ChosenLast(items: seq<Item>, item: Item, sub: seq<bytes>, attr: bytes)
    requires Provides(item, sub, attr, false).Some? && forall i :: i in items ==> !Plain(i, sub, attr)
    ensures Chosen(items + [item], sub, attr, Provides(item, sub, attr, false).value)
  {
    hide Provides;
    assert (items + [item])[|items|] == item;
  }

  lemma ElementChosen(items: seq<Item>, sub: seq<bytes>, attr: bytes, a: Access)
    requires Chosen(items, sub, attr, a) && a.shape.Element?
    ensures forall i :: i in items ==> !Plain(i, sub, attr)
  {
    hide Provides;
  }

  /** A direct attribute comes from the first entry that provides it other than as an array's, or else from the last one
      that provides it; unless the class had such an attribute before, or gets such a function or sub-directory. */
  lemma {:induction false} DirectFollow(items: seq<Item>, sub: seq<bytes>, given: Given, attr: bytes)
    requires Setup(items, sub, given).Some?
    ensures var own := if sub == [] then given.device else given.folder;
            DirectFollows(Setup(items, sub, given).value, own, items, sub, attr)
  {
    hide Provides, ParseLeaf, WithLeaf, Generated, Plain, Chosen;
    if items != [] {
      var init, item, own := items[..|items| - 1], items[|items| - 1], Own(given, sub);
      var c, d := Setup(init, sub, given).value, Setup(items, sub, given).value;
      var p := Provides(item, sub, attr, false);
      DirectFollow(init, sub, given, attr);
      assert items == init + [item];
      match item.node {
        case Folder(inner) =>
          FolderProvides(item, sub, attr, false);
          SubChanges(c, own, item.name, Setup(inner, sub + [item.name], given).value, attr);
        case Description(text) => LeafChanges(c, own, item, ParseLeaf(text).value, sub, attr);
      }
      if attr in d.direct {
        if attr in c.direct && (p.None? || !c.direct[attr].shape.Element?) {
          ChosenNext(init, item, sub, attr, c.direct[attr]);
        } else {
          if attr in c.direct {
            ElementChosen(init, sub, attr, c.direct[attr]);
          } else {
            NoneProvided(init, sub, attr);
          }
          ChosenLast(init, item, sub, attr);
        }
      }
    }
  }

  lemma NoneProvided(items: seq<Item>, sub: seq<bytes>, attr: bytes)
    requires forall item :: item in items ==> Provides(item, sub, attr, false).None?
    ensures forall item :: item in items ==> !Plain(item, sub, attr)
  {
  }

  /** Walking through the generated sub-directories and taking a get_ or set_ function, or a direct attribute, gives
      exactly what the structure provides in that folder: readable leaves have getters, writable ones setters, and no
      others. */
  lemma {:induction false} AccessorsFollow(items: seq<Item>, sub: seq<bytes>, given: Given, names: seq<bytes>,
                                           attr: bytes, write: bool)
    requires Setup(items, sub, given).Some?
    ensures var c, folder := Walk(Setup(items, sub, given).value, names), Resolve(items, names);
            (c.Some? <==> folder.Some?) &&
            (c.Some? ==>
               var own := if sub + names == [] then given.device else given.folder;
               DirectFollows(c.value, own, folder.value, sub + names, attr) &&
               var m := if write then c.value.setters else c.value.getters;
               Provider(folder.value, sub + names, attr, write) == if attr in m then Some(m[attr]) else None)
    decreases |names|
  {
    hide Provides, ParseLeaf, WithLeaf, Generated, DirectFollows;
    if names == [] {
      assert sub + names == sub;
      FunctionsFollow(items, sub, given, attr, write);
      DirectFollow(items, sub, given, attr);
    } else {
      SubsFollow(items, sub, given, names[0]);
      if FolderOf(items, names[0]).Some? {
        AccessorsFollow(FolderOf(items, names[0]).value, sub + [names[0]], given, names[1..], attr, write);
        assert sub + [names[0]] + names[1..] == sub + names;
      }
    }
  }

  // ---------------------------------------------------------------- entries, as the server publishes them

  /** A description: type, count, a number, mode, a length, and whatever else, between commas. */
  function Published(typ: bytes, count: int, n: int, mode: bytes, l: int, more: seq<bytes>): bytes {
    Join([typ, Decimal(count), Decimal(n), mode, Decimal(l)] + more, 44)
  }

  ghost predicate NoCommas(typ: bytes, mode: bytes, more: seq<bytes>) {
    44 !in typ && 44 !in mode && forall m :: m in more ==> 44 !in m
  }

  /** Which description is broken, and what the others say. */
  lemma DescriptionMeaning(parts: seq<bytes>)
    requires parts != [] && forall p :: p in parts ==> 44 !in p
    ensures var leaf := ParseLeaf(Join(parts, 44));
            (leaf.Some? <==>
               |parts| >= 5 && ParseInt(parts[1]).Some? && ParseInt(parts[2]).Some? && ParseInt(parts[4]).Some?) &&
            (leaf.Some? ==> leaf == Some(Leaf(parts[0], ParseInt(parts[1]).value, parts[3])))
  {
    hide ParseInt;
    SplitJoin(parts, COMMA);
  }

  lemma PublishedLeaf(typ: bytes, count: int, n: int, mode: bytes, l: int, more: seq<bytes>)
    requires NoCommas(typ, mode, more)
    ensures ParseLeaf(Published(typ, count, n, mode, l, more)) == Some(Leaf(typ, count, mode))
  {
    hide ParseInt, Decimal;
    ParseDecimal(count);
    ParseDecimal(n);
    ParseDecimal(l);
    DescriptionMeaning([typ, Decimal(count), Decimal(n), mode, Decimal(l)] + more);
  }

  /** The modes "ro", "wo" and "rw". */
  predicate MayRead(mode: bytes) {
    mode == [114, 111] || mode == [114, 119]
  }

  predicate MayWrite(mode: bytes) {
    mode == [119, 111] || mode == [114, 119]
  }

  /** What an entry provides whose name ends neither in ".0" nor in ".A": a getter if it may be read, a setter if it may
      be written, under its name. */
  lemma PlainProvides(name: bytes, typ: bytes, count: int, n: int, mode: bytes, l: int, more: seq<bytes>,
                      sub: seq<bytes>, attr: bytes, write: bool)
    requires NoCommas(typ, mode, more)
    requires |name| >= 2 ==> name[|name| - 2..] != [46, 48] && name[|name| - 2..] != [46, 65]
    ensures var item := Item(name, Description(Published(typ, count, n, mode, l, more)));
            Provides(item, sub, attr, write) ==
            if count == 0 && (if write then MayWrite(mode) else MayRead(mode)) && attr == name
            then Some(Access(sub + [name], typ, Scalar))
            else None
  {
    hide ParseLeaf, Published;
    PublishedLeaf(typ, count, n, mode, l, more);
  }

  /** And one whose name ends in ".0" or ".A": the element access and the access to the whole, under the name without
      that ending and with "_all" for it. */
  lemma ArrayProvides(base: bytes, num: bool, typ: bytes, count: int, n: int, mode: bytes, l: int, more: seq<bytes>,
                      sub: seq<bytes>, attr: bytes, write: bool)
    requires NoCommas(typ, mode, more)
    ensures var name := base + [46, if num then 48 else 65];
            var item := Item(name, Description(Published(typ, count, n, mode, l, more)));
            Provides(item, sub, attr, write) ==
            if count != 0 || !(if write then MayWrite(mode) else MayRead(mode)) then None
            else if attr == base then Some(Access(sub + [base], typ, Element(num)))
            else if attr == base + [95, 97, 108, 108] then Some(Access(sub + [base], typ, Whole))
            else None
  {
    hide ParseLeaf, Published;
    PublishedLeaf(typ, count, n, mode, l, more);
    var name := base + [46, if num then 48 else 65];
    assert name[|name| - 2..] == [46, if num then 48 else 65] && name[..|name| - 2] == base;
  }

  /** A structure of one such entry: the class has a get_ function if and only if the mode is "ro" or "rw", and a set_
      function if and only if it is "wo" or "rw"; and no other. */
  lemma OneEntryClass(name: bytes, typ: bytes, n: int, mode: bytes, l: int, more: seq<bytes>, sub: seq<bytes>,
                      given: Given, attr: bytes)
    requires NoCommas(typ, mode, more)
    requires |name| >= 2 ==> name[|name| - 2..] != [46, 48] && name[|name| - 2..] != [46, 65]
    ensures var made := Setup([Item(name, Description(Published(typ, 0, n, mode, l, more)))], sub, given);
            made.Some? &&
            (attr in made.value.getters <==> attr == name && MayRead(mode)) &&
            (attr in made.value.setters <==> attr == name && MayWrite(mode)) &&
            (attr in made.value.getters ==> made.value.getters[attr] == Access(sub + [name], typ, Scalar)) &&
            (attr in made.value.setters ==> made.value.setters[attr] == Access(sub + [name], typ, Scalar))
  {
    hide ParseLeaf, Published, Provides, Setup, MayRead, MayWrite;
    var items := [Item(name, Description(Published(typ, 0, n, mode, l, more)))];
    OneItem(items[0], sub, attr);
    PublishedLeaf(typ, 0, n, mode, l, more);
    SetupSucceedsIff(items, sub, given);
    FunctionsFollow(items, sub, given, attr, false);
    FunctionsFollow(items, sub, given, attr, true);
    PlainProvides(name, typ, 0, n, mode, l, more, sub, attr, false);
    PlainProvides(name, typ, 0, n, mode, l, more, sub, attr, true);
  }

  /** The same for an array: both functions, or neither. */
  lemma OneArrayClass(base: bytes, num: bool, typ: bytes, n: int, mode: bytes, l: int, more: seq<bytes>,
                      sub: seq<bytes>, given: Given, attr: bytes)
    requires NoCommas(typ, mode, more)
    ensures var name := base + [46, if num then 48 else 65];
            var made := Setup([Item(name, Description(Published(typ, 0, n, mode, l, more)))], sub, given);
            var whole := base + [95, 97, 108, 108];
            made.Some? &&
            (attr in made.value.getters <==> (attr == base || attr == whole) && MayRead(mode)) &&
            (attr in made.value.setters <==> (attr == base || attr == whole) && MayWrite(mode)) &&
            (attr in made.value.getters ==>
               made.value.getters[attr] == Access(sub + [base], typ, if attr == base then Element(num) else Whole)) &&
            (attr in made.value.setters ==>
               made.value.setters[attr] == Access(sub + [base], typ, if attr == base then Element(num) else Whole))
  {
    hide ParseLeaf, Published, Provides, Setup, MayRead, MayWrite;
    var items := [Item(base + [46, if num then 48 else 65], Description(Published(typ, 0, n, mode, l, more)))];
    OneItem(items[0], sub, attr);
    PublishedLeaf(typ, 0, n, mode, l, more);
    SetupSucceedsIff(items, sub, given);
    FunctionsFollow(items, sub, given, attr, false);
    FunctionsFollow(items, sub, given, attr, true);
    ArrayProvides(base, num, typ, 0, n, mode, l, more, sub, attr, false);
    ArrayProvides(base, num, typ, 0, n, mode, l, more, sub, attr, true);
  }

  lemma OneItem(item: Item, sub: seq<bytes>, attr: bytes)
    ensures forall write :: Provider([item], sub, attr, write) == Provides(item, sub, attr, write)
  {
    hide Provides;
    assert [item][..0] == [];
    assert forall write :: Provider([], sub, attr, write) == None;
  }

  /** The names of functions and sub-directory classes: get_, set_ and _cls_ in front. */
  lemma GeneratedMeaning(c: Class, name: bytes)
    ensures Generated(c, name) <==>
            exists n :: (name == [103, 101, 116, 95] + n && n in c.getters) ||
                        (name == [115, 101, 116, 95] + n && n in c.setters) ||
                        (name == [95, 99, 108, 115, 95] + n && n in c.subs)
  {
    assert GET <= name ==> name == GET + name[|GET|..];
    assert SET <= name ==> name == SET + name[|SET|..];
    assert CLS <= name ==> name == CLS + name[|CLS|..];
  }

  // ---------------------------------------------------------------- requests

  /** The path to which an accessor sends its request; an array's element accessors take an index. */
  function RequestTo(a: Access, idx: int): seq<bytes>
    requires a.path != [] && (a.shape.Element? && !a.shape.num ==> InAlphabet(idx))
  {
    match a.shape
    case Scalar => a.path
    case Element(num) => WithSuffix(a.path, Index(num, idx))
    case Whole => WithSuffix(a.path, ALL)
  }

  lemma {:induction false} ProvidingItem(items: seq<Item>, sub: seq<bytes>, attr: bytes, write: bool)
    returns (item: Item)
    requires Provider(items, sub, attr, write).Some?
    ensures item in items && Provides(item, sub, attr, write) == Provider(items, sub, attr, write)
  {
    item := items[|items| - 1];
    if Provides(item, sub, attr, write).None? {
      item := ProvidingItem(items[..|items| - 1], sub, attr, write);
    }
  }

  datatype Role = Direct | Getter | Setter

  function Attributes(c: Class, role: Role): map<bytes, Access> {
    match role case Direct => c.direct case Getter => c.getters case Setter => c.setters
  }

  lemma NamedByIndexZero(name: bytes)
    ensures match ArrayForm(name)
            case None => BaseName(name) == name
            case Some(num) => name == BaseName(name) + [DOT] + Index(num, 0) &&
                              name == BaseName(name) + [DOT, if num then ZERO else LETTER_A]
  {
    if ArrayForm(name).Some? {
      assert name == name[..|name| - 2] + name[|name| - 2..];
    }
  }

  lemma ProvidedPath(item: Item, at: seq<bytes>, attr: bytes, write: bool, a: Access, idx: int)
    requires Provides(item, at, attr, write) == Some(a) && (a.shape.Element? && !a.shape.num ==> InAlphabet(idx))
    ensures item.node.Description? && a.path != [] &&
            match a.shape
            case Scalar => item.name == attr && RequestTo(a, idx) == at + [attr]
            case Element(num) =>
              item.name == attr + [DOT] + Index(num, 0) && RequestTo(a, idx) == at + [attr + [DOT] + Index(num, idx)]
            case Whole =>
              exists base ::
                attr == base + SUFFIX_ALL && item.name in {base + [DOT, ZERO], base + [DOT, LETTER_A]} &&
                RequestTo(a, idx) == at + [base + [DOT] + ALL]
  {
    hide ParseLeaf, Decimal;
    NamedByIndexZero(item.name);
    var base := BaseName(item.name);
    assert a.path[..|a.path| - 1] == at && a.path[|a.path| - 1] == base;
    if a.shape.Whole? {
      assert attr == base + SUFFIX_ALL && item.name in {base + [DOT, ZERO], base + [DOT, LETTER_A]};
      assert RequestTo(a, idx) == at + [base + [DOT] + ALL];
    }
  }

  /** Where the requests of a direct attribute, or of a get_ or set_ function, go that is reached through
      sub-directories: an entry is published in that folder, and the request goes to that entry, or to the array that
      it stands for under the index or ALL. The element with index 0 is the published entry itself. */
  lemma RequestPath(items: seq<Item>, sub: seq<bytes>, given: Given, names: seq<bytes>, attr: bytes, role: Role,
                    idx: int)
    returns (item: Item)
    requires Setup(items, sub, given).Some? && Walk(Setup(items, sub, given).value, names).Some?
    requires attr in Attributes(Walk(Setup(items, sub, given).value, names).value, role)
    requires var a := Attributes(Walk(Setup(items, sub, given).value, names).value, role)[attr];
             a.shape.Element? && !a.shape.num ==> InAlphabet(idx)
    ensures Resolve(items, names).Some? && item in Resolve(items, names).value && item.node.Description?
    ensures var a := Attributes(Walk(Setup(items, sub, given).value, names).value, role)[attr];
            a.path != [] &&
            match a.shape
            case Scalar => item.name == attr && RequestTo(a, idx) == sub + names + [attr]
            case Element(num) =>
              item.name == attr + [DOT] + Index(num, 0) &&
              RequestTo(a, idx) == sub + names + [attr + [DOT] + Index(num, idx)]
            case Whole =>
              exists base ::
                attr == base + SUFFIX_ALL && item.name in {base + [DOT, ZERO], base + [DOT, LETTER_A]} &&
                RequestTo(a, idx) == sub + names + [base + [DOT] + ALL]
  {
    hide ParseLeaf, Decimal, Provides, Setup, Walk, RequestTo, Generated, Plain;
    AccessorsFollow(items, sub, given, names, attr, role.Setter?);
    var folder := Resolve(items, names).value;
    var a := Attributes(Walk(Setup(items, sub, given).value, names).value, role)[attr];
    if role.Direct? {
      var i :| 0 <= i < |folder| && Provides(folder[i], sub + names, attr, false) == Some(a);
      item := folder[i];
    } else {
      item := ProvidingItem(folder, sub + names, attr, role.Setter?);
    }
    ProvidedPath(item, sub + names, attr, role.Setter?, a, idx);
  }
}
