/** The mock owserver: a command interpreter over a tree of directories and text values,
    and its cyclic fault schedules (asyncowfs/mock/server.py). */
module MockServer {
  import opened Text
  import opened Wire
  import opened Messages

  const NO_ENTRY := 2
  const IS_DIR := 21

  datatype Tree = Leaf(text: bytes) | Node(kids: map<bytes, Tree>)

  // ---------------------------------------------------------------- paths in a tree

  /** Where a walk ends: Broken is the TypeError of looking inside a value. */
  datatype Walk = Found(tree: Tree) | Missing | Broken

  function Lookup(t: Tree, path: Path): Walk {
    if path == [] then Found(t)
    else if t.Leaf? then Broken
    else if path[0] !in t.kids then Missing
    else Lookup(t.kids[path[0]], path[1..])
  }

  /** The tree with the entry at a non-empty path replaced; the path's parent must be a directory. */
  function Update(t: Tree, path: Path, v: Tree): Tree
    requires path != []
    requires Lookup(t, path[..|path| - 1]).Found? && Lookup(t, path[..|path| - 1]).tree.Node?
  {
    if |path| == 1 then
      assert path[..0] == [];
      Node(t.kids[path[0] := v])
    else
      assert path[..|path| - 1][0] == path[0] && path[..|path| - 1][1..] == path[1..][..|path[1..]| - 1];
      Node(t.kids[path[0] := Update(t.kids[path[0]], path[1..], v)])
  }

  lemma {:induction false} LookupUpdated(t: Tree, path: Path, v: Tree)
    requires path != []
    requires Lookup(t, path[..|path| - 1]).Found? && Lookup(t, path[..|path| - 1]).tree.Node?
    ensures Lookup(Update(t, path, v), path) == Found(v)
  {
    if |path| > 1 {
      assert path[..|path| - 1][0] == path[0] && path[..|path| - 1][1..] == path[1..][..|path[1..]| - 1];
      LookupUpdated(t.kids[path[0]], path[1..], v);
    } else {
      assert path[..0] == [] && path[1..] == [];
    }
  }

  /** Two walks that no read or listing tells apart. */
  ghost predicate SameView(a: Walk, b: Walk) {
    a == b || (a.Found? && b.Found? && a.tree.Node? && b.tree.Node? && a.tree.kids.Keys == b.tree.kids.Keys)
  }

  lemma PrefixOfTails<T>(p: seq<T>, q: seq<T>)
    requires p != [] && q != [] && p[0] == q[0]
    ensures p[1..] <= q[1..] <==> p <= q
  {
  }

  /** Overwriting an existing entry is invisible at every path that is not at or below it. */
  lemma {:induction false} LookupElsewhere(t: Tree, path: Path, v: Tree, q: Path)
    requires path != [] && !(path <= q)
    requires Lookup(t, path[..|path| - 1]).Found? && Lookup(t, path[..|path| - 1]).tree.Node?
    requires Lookup(t, path).Found?
    ensures SameView(Lookup(Update(t, path, v), q), Lookup(t, q))
  {
    if |path| > 1 {
      assert path[..|path| - 1][0] == path[0] && path[..|path| - 1][1..] == path[1..][..|path[1..]| - 1];
    } else {
      assert path[..0] == [];
    }
    if q != [] && q[0] == path[0] {
      if |path| > 1 {
        PrefixOfTails(path, q);
        LookupElsewhere(t.kids[path[0]], path[1..], v, q[1..]);
      }
    }
  }

  function Init(path: Path): Path {
    if path == [] then [] else path[..|path| - 1]
  }

  // ---------------------------------------------------------------- sorted directory listings

  predicate Less(a: bytes, b: bytes) {
    if b == [] then false
    else if a == [] then true
    else if a[0] != b[0] then a[0] < b[0]
    else Less(a[1..], b[1..])
  }

  /** At k the two differ for the first time, and there a has the smaller byte, or has ended. */
  predicate SmallerAt(a: bytes, b: bytes, k: nat) {
    k <= |a| && k < |b| && a[..k] == b[..k] && (k < |a| ==> a[k] < b[k])
  }

  lemma {:induction false} LessMeaning(a: bytes, b: bytes)
    ensures Less(a, b) <==> exists k: nat :: SmallerAt(a, b, k)
  {
    if a != [] && b != [] && a[0] == b[0] {
      LessMeaning(a[1..], b[1..]);
      if k: nat :| SmallerAt(a[1..], b[1..], k) {
        assert a[..k + 1] == [a[0]] + a[1..][..k] && b[..k + 1] == [b[0]] + b[1..][..k];
        assert SmallerAt(a, b, k + 1);
      }
      if k: nat :| SmallerAt(a, b, k) {
        assert a[..k][1..] == a[1..][..k - 1] && b[..k][1..] == b[1..][..k - 1];
        assert SmallerAt(a[1..], b[1..], k - 1);
      }
    } else {
      assert Less(a, b) ==> SmallerAt(a, b, 0);
      if k: nat :| SmallerAt(a, b, k) {
        assert k > 0 ==> a[..k][0] == b[..k][0];
      }
    }
  }

  lemma {:induction false} LessTotal(a: bytes, b: bytes)
    ensures a == b || Less(a, b) || Less(b, a)
    ensures !(Less(a, b) && Less(b, a)) && !Less(a, a)
  {
    if a != [] {
      if b != [] {
        LessTotal(a[1..], b[1..]);
        assert a == [a[0]] + a[1..] && b == [b[0]] + b[1..];
      }
      LessTotal(a[1..], a[1..]);
    }
  }

  lemma {:induction false} LessTransitive(a: bytes, b: bytes, c: bytes)
    requires Less(a, b) && Less(b, c)
    ensures Less(a, c)
  {
    if a != [] && a[0] == b[0] == c[0] {
      LessTransitive(a[1..], b[1..], c[1..]);
    }
  }

  predicate IsLeast(m: bytes, keys: set<bytes>) {
    m in keys && forall k :: k in keys ==> k == m || Less(m, k)
  }

  lemma {:induction false} LeastExists(keys: set<bytes>) returns (m: bytes)
    requires keys != {}
    ensures IsLeast(m, keys)
  {
    var k :| k in keys;
    if keys == {k} {
      m := k;
    } else {
      var n := LeastExists(keys - {k});
      LessTotal(k, n);
      m := if Less(k, n) then k else n;
      forall x | x in keys ensures x == m || Less(m, x) {
        if x != k && x != n && m == k {
          LessTransitive(k, n, x);
        }
      }
    }
  }

  lemma LeastUnique(keys: set<bytes>)
    ensures forall m, n :: m in keys && n in keys && IsLeast(m, keys) && IsLeast(n, keys) ==> m == n
  {
    forall m, n | m in keys && n in keys && IsLeast(m, keys) && IsLeast(n, keys) ensures m == n {
      LessTotal(m, n);
    }
  }

  /** sorted(keys) */
  function Sorted(keys: set<bytes>): (s: seq<bytes>)
    ensures forall k :: k in s <==> k in keys
    ensures |s| == |keys|
    ensures forall i, j :: 0 <= i < j < |s| ==> Less(s[i], s[j])
  {
    if keys == {} then []
    else
      assert exists m :: IsLeast(m, keys) by {
        var m := LeastExists(keys);
      }
      LeastUnique(keys);
      var m :| m in keys && IsLeast(m, keys);
      [m] + Sorted(keys - {m})
  }

  // ---------------------------------------------------------------- the interpreter

  /** One command: a reply and the new tree, or an exception that ends the connection. */
  datatype Served = Answer(reply: Frame, tree: Tree) | Died

  function ErrorReply(flags: int, code: int): Frame {
    Frame(-code, flags, 0, Some([]), 0)
  }

  /** The directory prefix of every listed entry. */
  function Prefix(path: Path): bytes {
    if path == [] then [SLASH] else [SLASH] + Join(path, SLASH) + [SLASH]
  }

  function Prefixed(prefix: bytes, names: seq<bytes>): (r: seq<bytes>)
    ensures |r| == |names|
  {
    seq(|names|, i requires 0 <= i < |names| => prefix + names[i])
  }

  lemma {:induction false} JoinLast(path: Path, name: bytes)
    ensures Join(path + [name], SLASH) == if path == [] then name else Join(path, SLASH) + [SLASH] + name
  {
    if path != [] {
      JoinLast(path[1..], name);
      assert (path + [name])[0] == path[0] && (path + [name])[1..] == path[1..] + [name];
    }
  }

  /** Every listed entry is the whole path of what it stands for. */
  lemma ListedPath(path: Path, name: bytes)
    requires AreParts(path) && IsPart(name)
    ensures Components(Prefix(path) + name) == path + [name]
  {
    hide Components;
    JoinLast(path, name);
    ComponentsOfPath(path + [name]);
    assert Prefix(path) + name == [SLASH] + Join(path + [name], SLASH);
  }

  function ServeDir(tree: Tree, flags: int, path: Path): Served {
    match Lookup(tree, path)
    case Missing => Answer(ErrorReply(flags, NO_ENTRY), tree)
    case Broken => Died
    case Found(Leaf(_)) => Died
    case Found(Node(kids)) =>
      var data := Join(Prefixed(Prefix(path), Sorted(kids.Keys)), COMMA);
      Answer(Frame(0, flags, |data|, Some(data + [NUL]), 0), tree)
  }

  function ServeRead(tree: Tree, flags: int, path: Path): Served {
    match Lookup(tree, path)
    case Missing => Answer(ErrorReply(flags, NO_ENTRY), tree)
    case Broken => Died
    case Found(Node(_)) => Answer(ErrorReply(flags, IS_DIR), tree)
    case Found(Leaf(text)) => Answer(Frame(0, flags, |text|, Some(text + [NUL]), 0), tree)
  }

  /** name in text, on strings: the substring test a write through a value ends up with. */
  predicate Occurs(name: bytes, text: bytes) {
    name <= text || (text != [] && Occurs(name, text[1..]))
  }

  function ServeWrite(tree: Tree, flags: int, path: Path, text: bytes): Served {
    if path == [] then Died
    else
      var last := path[|path| - 1];
      match Lookup(tree, Init(path))
      case Missing => Answer(ErrorReply(flags, NO_ENTRY), tree)
      case Broken => Died
      case Found(Leaf(inside)) => if Occurs(last, inside) then Died else Answer(ErrorReply(flags, NO_ENTRY), tree)
      case Found(Node(kids)) =>
        if last !in kids then Answer(ErrorReply(flags, NO_ENTRY), tree)
        else Answer(Frame(0, flags, 0, Some([]), 0), Update(tree, path, Leaf(text)))
  }

  function Serve(tree: Tree, command: int, flags: int, data: bytes, dataLen: int): Served {
    if command == NOP then Answer(Frame(0, flags, 0, Some([]), 0), tree)
    else if command == DIRALL then ServeDir(tree, flags, Components(data))
    else if command == READ then ServeRead(tree, flags, Components(data))
    else if command == WRITE then
      ServeWrite(tree, flags, Components(UpTo(data, -dataLen)), From(data, -dataLen))
    else Died
  }

  lemma {:induction false} OccursMeaning(name: bytes, text: bytes)
    ensures Occurs(name, text) <==> exists i :: 0 <= i <= |text| && name <= text[i..]
  {
    assert text[0..] == text;
    if text != [] {
      OccursMeaning(name, text[1..]);
      forall i | 0 <= i < |text| ensures text[i + 1..] == text[1..][i..] {
      }
      if i :| 0 <= i <= |text[1..]| && name <= text[1..][i..] {
        assert name <= text[i + 1..];
      }
      if i :| 0 <= i <= |text| && name <= text[i..] {
        assert i > 0 ==> name <= text[1..][i - 1..];
      }
    }
  }

  /** Commands other than the four end the connection; every answer has the command's flags, and a length that its data
      covers. */
  lemma ServedMeaning(tree: Tree, command: int, flags: int, data: bytes, dataLen: int)
    ensures var s := Serve(tree, command, flags, data, dataLen);
            (s.Answer? ==> command in {1, 2, 3, 7}) && (command == 1 ==> s.Answer?) &&
            (s.Answer? ==>
               s.reply.flags == flags && s.reply.offset == 0 && s.reply.data.Some? &&
               0 <= s.reply.rlen <= |s.reply.data.value| && s.reply.typ in {0, -2, -21} &&
               (s.tree != tree ==> command == 3))
  {
    hide Components, Lookup, Update, Join, Sorted, Prefix, Occurs, UpTo, From;
  }

  // ---------------------------------------------------------------- the server object

  function NextCursor(n: nat, cursor: nat): (c: nat)
    requires n >= 2
    ensures 1 <= c < n
  {
    if cursor + 1 >= n then 1 else cursor + 1
  }

  /** A fault schedule: a cursor in the first place, then the flags it cycles through. No schedule, null, is never
      due; None stands for that answer. */
  method Check(v: array?<int>) returns (flag: Option<int>)
    requires v != null ==> v.Length >= 2 && 0 <= v[0]
    modifies v
    ensures v == null ==> flag == None
    ensures v != null ==>
              v[0] == NextCursor(v.Length, old(v[0])) && flag == Some(v[v[0]]) &&
              forall i :: 1 <= i < v.Length ==> v[i] == old(v[i])
  {
    if v == null {
      return None;
    }
    v[0] := v[0] + 1;
    if v[0] >= v.Length {
      v[0] := 1;
    }
    flag := Some(v[v[0]]);
  }

  /** The cursor after k checks. */
  function CursorAfter(n: nat, cursor: nat, k: nat): (c: nat)
    requires n >= 2 && cursor < n
    ensures c < n
  {
    if k == 0 then cursor else NextCursor(n, CursorAfter(n, cursor, k - 1))
  }

  /** Closed form: the k-th check reads flag number (cursor + k - 1) modulo the number of flags. */
  lemma {:induction false} CursorClosedForm(n: nat, cursor: nat, k: nat)
    requires n >= 2 && cursor < n && k >= 1
    ensures CursorAfter(n, cursor, k) == 1 + (cursor + k - 1) % (n - 1)
  {
    if k > 1 {
      CursorClosedForm(n, cursor, k - 1);
      StepModulo(cursor + k - 2, n - 1);
    } else if cursor == n - 1 {
      StepModulo(cursor - 1, n - 1);
      assert CursorAfter(n, cursor, 0) == cursor;
    } else {
      assert CursorAfter(n, cursor, 0) == cursor;
      SmallModulo(cursor, n - 1);
    }
  }

  lemma SmallModulo(a: nat, m: nat)
    requires a < m
    ensures a % m == a
  {
  }

  lemma StepModulo(a: int, m: nat)
    requires m >= 1 && a >= -1
    ensures a >= 0 ==> (a + 1) % m == if a % m + 1 == m then 0 else a % m + 1
    ensures a == m - 1 ==> (a + 1) % m == 0
  {
    var q, r := (a + 1) / m, (a + 1) % m;
    assert a + 1 == q * m + r;
    if a >= 0 {
      var q', r' := a / m, a % m;
      assert a == q' * m + r';
      if r' + 1 == m {
        assert a + 1 == (q' + 1) * m;
        ModuloUnique(a + 1, m, q' + 1, 0);
      } else {
        ModuloUnique(a + 1, m, q', r' + 1);
      }
    }
    if a == m - 1 {
      ModuloUnique(a + 1, m, 1, 0);
    }
  }

  lemma ModuloUnique(a: int, m: nat, q: int, r: nat)
    requires m >= 1 && r < m && a == q * m + r
    ensures a % m == r
  {
    RemainderUnique(m, q, r, a / m, a % m);
  }

  lemma RemainderUnique(m: nat, q: int, r: nat, q': int, r': nat)
    requires r < m && r' < m && q * m + r == q' * m + r'
    ensures r == r'
  {
    if q > q' {
      Multiple(q - q', m);
    } else if q < q' {
      Multiple(q' - q, m);
    }
  }

  lemma Multiple(d: int, m: nat)
    requires d >= 1
    ensures d * m >= m
  {
  }

  /** Any window of n - 1 consecutive checks, wherever it starts, reads every flag exactly once. */
  lemma WindowVisitsEachFlagOnce(n: nat, cursor: nat, start: nat, flag: nat) returns (k: nat)
    requires n >= 2 && cursor < n && 1 <= flag < n
    ensures start < k < start + n && CursorAfter(n, cursor, k) == flag
    ensures forall j :: start < j < start + n && CursorAfter(n, cursor, j) == flag ==> j == k
  {
    var m := n - 1;
    var base := (cursor + start) % m;
    var ahead := if flag - 1 >= base then flag - 1 - base else flag - 1 - base + m;
    k := start + 1 + ahead;
    WindowPosition(n, cursor, start, ahead);
    forall j | start < j < start + n && CursorAfter(n, cursor, j) == flag ensures j == k {
      WindowPosition(n, cursor, start, j - start - 1);
    }
  }

  lemma WindowPosition(n: nat, cursor: nat, start: nat, ahead: nat)
    requires n >= 2 && cursor < n && ahead < n - 1
    ensures var base := (cursor + start) % (n - 1);
            CursorAfter(n, cursor, start + 1 + ahead) - 1 ==
            if base + ahead < n - 1 then base + ahead else base + ahead - (n - 1)
  {
    CursorClosedForm(n, cursor, start + 1 + ahead);
    ShiftModulo(cursor + start, ahead, n - 1);
  }

  lemma ShiftModulo(a: nat, ahead: nat, m: nat)
    requires ahead < m
    ensures (a + ahead) % m == if a % m + ahead < m then a % m + ahead else a % m + ahead - m
  {
    var q, r := a / m, a % m;
    assert a == q * m + r;
    if r + ahead < m {
      ModuloUnique(a + ahead, m, q, r + ahead);
    } else {
      assert (q + 1) * m == q * m + m;
      ModuloUnique(a + ahead, m, q + 1, r + ahead - m);
    }
  }

  /** The walk of the write command, with the name last seen and the names still to come. */
  function ParentWalk(t: Tree, last: bytes, rest: Path): Walk
    decreases |rest|
  {
    if rest == [] then Found(t)
    else if t.Leaf? then Broken
    else if last !in t.kids then Missing
    else ParentWalk(t.kids[last], rest[0], rest[1..])
  }

  function FinalName(last: bytes, rest: Path): (name: bytes)
    ensures name == ([last] + rest)[|rest|]
  {
    if rest == [] then last else rest[|rest| - 1]
  }

  lemma LookupStep(t: Tree, k: bytes, rest: Path)
    ensures Lookup(t, [k] + rest) ==
            if t.Leaf? then Broken else if k !in t.kids then Missing else Lookup(t.kids[k], rest)
  {
  }

  lemma HeadTail<T>(a: T, rest: seq<T>)
    ensures ([a] + rest)[0] == a && ([a] + rest)[1..] == rest
  {
  }

  lemma {:induction false} ParentWalkMeaning(t: Tree, last: bytes, rest: Path)
    ensures ParentWalk(t, last, rest) == Lookup(t, Init([last] + rest))
    decreases |rest|
  {
    if rest != [] {
      assert rest == [rest[0]] + rest[1..];
      assert Init([last] + rest) == [last] + Init(rest);
      LookupStep(t, last, Init(rest));
      if t.Node? && last in t.kids {
        ParentWalkMeaning(t.kids[last], rest[0], rest[1..]);
      }
    }
  }

  /** The tree and the command handlers. A missing reply stands for an exception that is not an
      OWFSReplyError: it ends the connection. */
  class Mock {
    var tree: Tree

    constructor (tree: Tree)
      ensures this.tree == tree
    {
      this.tree := tree;
    }

    /** The walk shared by reading and listing: the components seen, and where they lead. */
    method Walk(data: bytes) returns (path: Path, end: Walk)
      ensures end == Lookup(tree, Components(data))
      ensures end.Found? ==> path == Components(data)
    {
      var parts := Split(StripNuls(data), SLASH);
      var subtree := tree;
      path := [];
      var i := 0;
      assert parts[0..] == parts && path + NonEmpty(parts) == NonEmpty(parts);
      while i < |parts|
        invariant 0 <= i <= |parts|
        invariant Lookup(tree, NonEmpty(parts)) == Lookup(subtree, NonEmpty(parts[i..]))
        invariant NonEmpty(parts) == path + NonEmpty(parts[i..])
      {
        NonEmptyStep(parts, i);
        if parts[i] != [] {
          var k := parts[i];
          ghost var rest := NonEmpty(parts[i + 1..]);
          LookupStep(subtree, k, rest);
          assert path + ([k] + rest) == path + [k] + rest;
          path := path + [k];
          if subtree.Leaf? {
            return path, Broken;
          }
          if k !in subtree.kids {
            return path, Missing;
          }
          subtree := subtree.kids[k];
        }
        i := i + 1;
      }
      end := Found(subtree);
    }

    method Handle(command: int, flags: int, data: bytes, dataLen: int) returns (reply: Option<Frame>)
      modifies this
      ensures match Serve(old(tree), command, flags, data, dataLen)
              case Died => reply == None && tree == old(tree)
              case Answer(r, t) => reply == Some(r) && tree == t
    {
      if command == NOP {
        reply := Some(Frame(0, flags, 0, Some([]), 0));
      } else if command == DIRALL {
        var path, end := Walk(data);
        match end {
          case Missing => reply := Some(ErrorReply(flags, NO_ENTRY));
          case Broken => reply := None;
          case Found(Leaf(_)) => reply := None;
          case Found(Node(kids)) =>
            var listing := Join(Prefixed(Prefix(path), Sorted(kids.Keys)), COMMA);
            reply := Some(Frame(0, flags, |listing|, Some(listing + [NUL]), 0));
        }
      } else if command == READ {
        var _, end := Walk(data);
        match end {
          case Missing => reply := Some(ErrorReply(flags, NO_ENTRY));
          case Broken => reply := None;
          case Found(Node(_)) => reply := Some(ErrorReply(flags, IS_DIR));
          case Found(Leaf(text)) => reply := Some(Frame(0, flags, |text|, Some(text + [NUL]), 0));
        }
      } else if command == WRITE {
        reply := Store(flags, UpTo(data, -dataLen), From(data, -dataLen));
      } else {
        reply := None;
      }
    }

    /** The write command's walk: it stays one component behind, so that it ends at the parent. */
    method WalkToParent(data: bytes) returns (last: Option<bytes>, end: Walk)
      ensures Components(data) == [] <==> last == None
      ensures Components(data) != [] ==> end == Lookup(tree, Init(Components(data)))
      ensures Components(data) != [] && end.Found? ==> last == Some(Components(data)[|Components(data)| - 1])
    {
      var parts := Split(StripNuls(data), SLASH);
      ghost var path := NonEmpty(parts);
      var res := tree;
      last := None;
      var i := 0;
      assert parts[0..] == parts;
      assert path != [] ==> path == [path[0]] + path[1..];
      while i < |parts|
        invariant 0 <= i <= |parts|
        invariant last.None? ==> res == tree && NonEmpty(parts[i..]) == path
        invariant last.Some? ==> path != [] && FinalName(last.value, NonEmpty(parts[i..])) == path[|path| - 1] &&
                                 ParentWalk(res, last.value, NonEmpty(parts[i..])) ==
                                 ParentWalk(tree, path[0], path[1..])
      {
        NonEmptyStep(parts, i);
        if parts[i] != [] {
          ghost var rest := NonEmpty(parts[i + 1..]);
          HeadTail(parts[i], rest);
          if last.Some? {
            if res.Leaf? {
              ParentWalkMeaning(tree, path[0], path[1..]);
              return last, Broken;
            }
            if last.value !in res.kids {
              ParentWalkMeaning(tree, path[0], path[1..]);
              return last, Missing;
            }
            res := res.kids[last.value];
          }
          last := Some(parts[i]);
        }
        i := i + 1;
      }
      if path != [] {
        ParentWalkMeaning(tree, path[0], path[1..]);
      }
      end := Found(res);
    }

    method Store(flags: int, data: bytes, text: bytes) returns (reply: Option<Frame>)
      modifies this
      ensures match ServeWrite(old(tree), flags, Components(data), text)
              case Died => reply == None && tree == old(tree)
              case Answer(r, t) => reply == Some(r) && tree == t
    {
      var name, end := WalkToParent(data);
      if name.None? {
        return None;
      }
      match end {
        case Broken => reply := None;
        case Missing => reply := Some(ErrorReply(flags, NO_ENTRY));
        case Found(res) =>
          var last := name.value;
          if res.Leaf? {
            return if Occurs(last, res.text) then None else Some(ErrorReply(flags, NO_ENTRY));
          }
          if last !in res.kids {
            return Some(ErrorReply(flags, NO_ENTRY));
          }
          tree := Update(tree, Components(data), Leaf(text));
          reply := Some(Frame(0, flags, 0, Some([]), 0));
      }
    }
  }
}
