/**
 The bytes that are hashed for a repository fingerprint: a sorted pre-order walk of the
 tree, each entry length-prefixed (app/agent/preparation.py:158-201, 554-587;
 app/agent/static_checks.py:459-513, 823-841).
 */
module Fingerprint {
  import opened Wrappers
  import opened TextLines
  import opened Sorting
  import opened Utf8
  import opened UnifiedDiff

  /** A file, or a directory as the system lists it: its entries in any order. */
  datatype Node = FileNode(data: seq<byte>) | DirNode(kids: seq<Kid>)
  datatype Kid = Kid(name: string, node: Node)

  /** One entry of a walk: its path, and its bytes unless it is a directory. */
  datatype Item = Item(path: seq<string>, data: Option<seq<byte>>)

  predicate NameOk(name: string) {
    name != "" && '/' !in name
  }

  /** Names are names, and a directory lists each once. */
  predicate ListingOk(kids: seq<Kid>) {
    && (forall i, j :: 0 <= i < j < |kids| ==> kids[i].name != kids[j].name)
    && forall i :: 0 <= i < |kids| ==> NameOk(kids[i].name) && (kids[i].node.DirNode? ==> ListingOk(kids[i].node.kids))
  }

  function NodeSize(node: Node): nat {
    match node
    case FileNode(_) => 0
    case DirNode(kids) => ListingSize(kids)
  }

  function ListingSize(kids: seq<Kid>): nat {
    if kids == [] then 0 else 1 + NodeSize(kids[0].node) + ListingSize(kids[1..])
  }

  // ---------------------------------------------------------------- the walk

  predicate NameLeq(a: Kid, b: Kid) {
    StringLeq(a.name, b.name)
  }

  /** `sorted(scanned, key=lambda item: item.name)`. */
  function ByName(kids: seq<Kid>): (r: seq<Kid>)
    ensures |r| == |kids| && multiset(r) == multiset(kids)
  {
    Sort(kids, NameLeq)
  }

  lemma {:induction false} InsertSize(kid: Kid, kids: seq<Kid>)
    ensures ListingSize(Insert(kid, kids, NameLeq)) == 1 + NodeSize(kid.node) + ListingSize(kids)
  {
    var r := Insert(kid, kids, NameLeq);
    if kids == [] || NameLeq(kid, kids[0]) {
      assert r[1..] == kids;
    } else {
      InsertSize(kid, kids[1..]);
      assert r[1..] == Insert(kid, kids[1..], NameLeq);
    }
  }

  lemma {:induction false} ByNameSize(kids: seq<Kid>)
    ensures ListingSize(ByName(kids)) == ListingSize(kids)
  {
    if kids != [] {
      ByNameSize(kids[1..]);
      InsertSize(kids[0], ByName(kids[1..]));
    }
  }

  /** Entries of a sorted listing and of everything below it, parents first. */
  function Walk(prefix: seq<string>, kids: seq<Kid>): seq<Item>
    decreases ListingSize(kids), 0
  {
    if kids == [] then []
    else EntryItems(prefix, kids[0]) + Walk(prefix, kids[1..])
  }

  /** An entry, and what is below it. */
  function EntryItems(prefix: seq<string>, kid: Kid): seq<Item>
    decreases NodeSize(kid.node), 1
  {
    var path := prefix + [kid.name];
    match kid.node
    case FileNode(data) => [Item(path, Some(data))]
    case DirNode(sub) =>
      ByNameSize(sub);
      [Item(path, None)] + Walk(path, ByName(sub))
  }

  /** The walk of a repository. */
  function WalkRoot(kids: seq<Kid>): seq<Item> {
    Walk([], ByName(kids))
  }

  /** What a tree contains, whatever order its directories list it in. */
  function Contained(prefix: seq<string>, kids: seq<Kid>): set<Item>
    decreases kids
  {
    if kids == [] then {} else EntryContained(prefix, kids[0]) + Contained(prefix, kids[1..])
  }

  function EntryContained(prefix: seq<string>, kid: Kid): set<Item>
    decreases kid
  {
    var path := prefix + [kid.name];
    match kid.node
    case FileNode(data) => {Item(path, Some(data))}
    case DirNode(sub) => {Item(path, None)} + Contained(path, sub)
  }

  function Members(items: seq<Item>): set<Item> {
    set item | item in items
  }

  lemma {:induction false} ContainedInsert(prefix: seq<string>, kid: Kid, kids: seq<Kid>)
    ensures Contained(prefix, Insert(kid, kids, NameLeq)) == EntryContained(prefix, kid) + Contained(prefix, kids)
  {
    hide EntryContained, NameLeq;
    var r := Insert(kid, kids, NameLeq);
    if kids == [] || NameLeq(kid, kids[0]) {
      assert r[1..] == kids;
    } else {
      ContainedInsert(prefix, kid, kids[1..]);
      assert r[1..] == Insert(kid, kids[1..], NameLeq);
    }
  }

  lemma {:induction false} ContainedByName(prefix: seq<string>, kids: seq<Kid>)
    ensures Contained(prefix, ByName(kids)) == Contained(prefix, kids)
  {
    if kids != [] {
      ContainedByName(prefix, kids[1..]);
      ContainedInsert(prefix, kids[0], ByName(kids[1..]));
    }
  }

  /** A walk visits what the tree contains. */
  lemma {:induction false} WalkMembers(prefix: seq<string>, kids: seq<Kid>)
    ensures Members(Walk(prefix, kids)) == Contained(prefix, kids)
    decreases ListingSize(kids), 0
  {
    if kids != [] {
      EntryMembers(prefix, kids[0]);
      WalkMembers(prefix, kids[1..]);
    }
  }

  lemma {:induction false} EntryMembers(prefix: seq<string>, kid: Kid)
    ensures Members(EntryItems(prefix, kid)) == EntryContained(prefix, kid)
    decreases NodeSize(kid.node), 1
  {
    if kid.node.DirNode? {
      var path := prefix + [kid.name];
      ByNameSize(kid.node.kids);
      WalkMembers(path, ByName(kid.node.kids));
      ContainedByName(path, kid.node.kids);
    }
  }

  // ---------------------------------------------------------------- the walk is sorted

  /** Component by component, a directory before what is in it. */
  predicate PathLess(a: seq<string>, b: seq<string>) {
    b != [] && (a == [] || if a[0] == b[0] then PathLess(a[1..], b[1..]) else StringLeq(a[0], b[0]))
  }

  predicate SortedItems(items: seq<Item>) {
    forall i, j :: 0 <= i < j < |items| ==> PathLess(items[i].path, items[j].path)
  }

  lemma {:induction false} PathLessAsymmetric(a: seq<string>, b: seq<string>)
    ensures !(PathLess(a, b) && PathLess(b, a))
  {
    if a != [] && b != [] {
      StringTotal(a[0], b[0]);
      PathLessAsymmetric(a[1..], b[1..]);
    }
  }

  lemma {:induction false} PathLessUnder(prefix: seq<string>, a: seq<string>, b: seq<string>)
    requires PathLess(a, b)
    ensures PathLess(prefix + a, prefix + b)
  {
    if prefix == [] {
      assert prefix + a == a && prefix + b == b;
    } else {
      assert (prefix + a)[1..] == prefix[1..] + a && (prefix + b)[1..] == prefix[1..] + b;
      PathLessUnder(prefix[1..], a, b);
    }
  }

  predicate Under(prefix: seq<string>, name: string, path: seq<string>) {
    prefix + [name] <= path
  }

  lemma UnderLess(prefix: seq<string>, a: string, b: string, x: seq<string>, y: seq<string>)
    requires Under(prefix, a, x) && Under(prefix, b, y) && a != b && StringLeq(a, b)
    ensures PathLess(x, y)
  {
    var n := |prefix|;
    var p, q := [a] + x[n + 1..], [b] + y[n + 1..];
    assert x == prefix + p && y == prefix + q;
    assert PathLess(p, q);
    PathLessUnder(prefix, p, q);
  }

  lemma ParentLess(path: seq<string>, name: string, x: seq<string>)
    requires Under(path, name, x)
    ensures PathLess(path, x)
  {
    PathLessUnder(path, [], x[|path|..]);
    assert path + [] == path && path + x[|path|..] == x;
  }

  /** Every path of a walk is below one of the listed names. */
  lemma {:induction false} WalkUnder(prefix: seq<string>, kids: seq<Kid>, item: Item) returns (i: nat)
    requires item in Walk(prefix, kids)
    ensures i < |kids| && Under(prefix, kids[i].name, item.path)
    decreases ListingSize(kids), 0
  {
    if item in EntryItems(prefix, kids[0]) {
      i := 0;
      EntryUnder(prefix, kids[0], item);
    } else {
      i := WalkUnder(prefix, kids[1..], item);
      i := i + 1;
    }
  }

  lemma {:induction false} EntryUnder(prefix: seq<string>, kid: Kid, item: Item)
    requires item in EntryItems(prefix, kid)
    ensures Under(prefix, kid.name, item.path)
    decreases NodeSize(kid.node), 1
  {
    var path := prefix + [kid.name];
    if kid.node.DirNode? && item.path != path {
      ByNameSize(kid.node.kids);
      var i := WalkUnder(path, ByName(kid.node.kids), item);
    }
  }

  /** Names in order, each once; the same below, in whatever order the system lists it. */
  predicate SortedListing(kids: seq<Kid>) {
    && ListingOk(kids)
    && Sorted(kids, NameLeq)
  }

  lemma NamesTotal()
    ensures TotalPreorder(NameLeq)
  {
    forall a: Kid, b: Kid ensures NameLeq(a, b) || NameLeq(b, a) {
      StringTotal(a.name, b.name);
    }
    forall a: Kid, b: Kid, c: Kid | NameLeq(a, b) && NameLeq(b, c) ensures NameLeq(a, c) {
      StringTransitive(a.name, b.name, c.name);
    }
  }

  lemma ByNameSorted(kids: seq<Kid>)
    requires ListingOk(kids)
    ensures SortedListing(ByName(kids))
  {
    NamesTotal();
    SortSorted(kids, NameLeq);
    SortMembers(kids, NameLeq);
    var same := (a: Kid, b: Kid) => a.name == b.name;
    assert Apart(kids, same);
    ApartReordered(kids, ByName(kids), same);
    assert forall i, j :: 0 <= i < j < |kids| ==> !same(ByName(kids)[i], ByName(kids)[j]);
    forall i | 0 <= i < |kids|
      ensures NameOk(ByName(kids)[i].name) && (ByName(kids)[i].node.DirNode? ==> ListingOk(ByName(kids)[i].node.kids))
    {
      assert ByName(kids)[i] in kids;
    }
  }

  lemma SortedConcat(a: seq<Item>, b: seq<Item>)
    requires SortedItems(a) && SortedItems(b)
    requires forall x, y :: x in a && y in b ==> PathLess(x.path, y.path)
    ensures SortedItems(a + b)
  {
  }

  lemma {:induction false} WalkSorted(prefix: seq<string>, kids: seq<Kid>)
    requires SortedListing(kids)
    ensures SortedItems(Walk(prefix, kids))
    decreases ListingSize(kids), 0
  {
    hide PathLess, Under, EntryItems;
    if kids != [] {
      EntrySorted(prefix, kids[0]);
      WalkSorted(prefix, kids[1..]);
      var first, rest := EntryItems(prefix, kids[0]), Walk(prefix, kids[1..]);
      forall x, y | x in first && y in rest ensures PathLess(x.path, y.path) {
        EntryUnder(prefix, kids[0], x);
        var i := WalkUnder(prefix, kids[1..], y);
        assert NameLeq(kids[0], kids[i + 1]);
        UnderLess(prefix, kids[0].name, kids[i + 1].name, x.path, y.path);
      }
      SortedConcat(first, rest);
    }
  }

  lemma {:induction false} EntrySorted(prefix: seq<string>, kid: Kid)
    requires kid.node.DirNode? ==> ListingOk(kid.node.kids)
    ensures SortedItems(EntryItems(prefix, kid))
    decreases NodeSize(kid.node), 1
  {
    hide PathLess, Under, SortedListing, Walk;
    if kid.node.DirNode? {
      var path, sub := prefix + [kid.name], ByName(kid.node.kids);
      ByNameSize(kid.node.kids);
      ByNameSorted(kid.node.kids);
      WalkSorted(path, sub);
      forall x, y | x in [Item(path, None)] && y in Walk(path, sub) ensures PathLess(x.path, y.path) {
        var i := WalkUnder(path, sub, y);
        ParentLess(path, sub[i].name, y.path);
      }
      SortedConcat([Item(path, None)], Walk(path, sub));
    }
  }

  /** A set of entries has one sorted sequence. */
  lemma {:induction false} SortedUnique(s: seq<Item>, t: seq<Item>)
    requires SortedItems(s) && SortedItems(t) && Members(s) == Members(t)
    ensures s == t
    decreases |s|
  {
    hide Members, SortedItems;
    if s == [] || t == [] {
      NoMembers(s);
      NoMembers(t);
    } else {
      FirstOf(s, t);
      RestOf(s);
      RestOf(t);
      SortedUnique(s[1..], t[1..]);
      assert s == [s[0]] + s[1..] && t == [t[0]] + t[1..];
    }
  }

  lemma NoMembers(s: seq<Item>)
    ensures Members(s) == {} <==> s == []
  {
    if s != [] {
      assert s[0] in Members(s);
    }
  }

  lemma RestOf(s: seq<Item>)
    requires SortedItems(s) && s != []
    ensures SortedItems(s[1..]) && Members(s[1..]) == Members(s) - {s[0]}
  {
    hide PathLess;
    SortedOnce(s);
    assert s == [s[0]] + s[1..];
  }

  lemma FirstOf(s: seq<Item>, t: seq<Item>)
    requires SortedItems(s) && SortedItems(t) && Members(s) == Members(t) && s != []
    ensures t != [] && s[0] == t[0]
  {
    assert s[0] in Members(s) && s[0] in Members(t);
    assert t[0] in Members(t) && t[0] in Members(s);
    var j :| 0 <= j < |t| && t[j] == s[0];
    var i :| 0 <= i < |s| && s[i] == t[0];
    PathLessAsymmetric(s[0].path, t[0].path);
  }

  lemma SortedOnce(s: seq<Item>)
    requires SortedItems(s) && s != []
    ensures s[0] !in s[1..]
  {
    if i :| 1 <= i < |s| && s[i] == s[0] {
      PathLessAsymmetric(s[0].path, s[i].path);
    }
  }

  /** Two trees are walked alike exactly when they contain the same, whatever order they are listed in. */
  lemma WalkIsContents(a: seq<Kid>, b: seq<Kid>)
    requires ListingOk(a) && ListingOk(b)
    ensures WalkRoot(a) == WalkRoot(b) <==> Contained([], a) == Contained([], b)
  {
    WalkMembers([], ByName(a));
    WalkMembers([], ByName(b));
    ContainedByName([], a);
    ContainedByName([], b);
    ByNameSorted(a);
    ByNameSorted(b);
    WalkSorted([], ByName(a));
    WalkSorted([], ByName(b));
    if Contained([], a) == Contained([], b) {
      SortedUnique(WalkRoot(a), WalkRoot(b));
    }
  }

  // ---------------------------------------------------------------- the stream

  /** `value.to_bytes(size, "big")`. */
  function BigEndian(value: nat, size: nat): (r: seq<byte>)
    ensures |r| == size
  {
    if size == 0 then [] else BigEndian(value / 256, size - 1) + [value % 256]
  }

  function Power256(size: nat): (r: nat)
    ensures r > 0
  {
    if size == 0 then 1 else 256 * Power256(size - 1)
  }

  lemma {:induction false} BigEndianInjective(a: nat, b: nat, size: nat)
    requires a < Power256(size) && b < Power256(size)
    requires BigEndian(a, size) == BigEndian(b, size)
    ensures a == b
  {
    if size > 0 {
      var x, y := BigEndian(a, size), BigEndian(b, size);
      assert x[size - 1] == y[size - 1] && x[..size - 1] == y[..size - 1];
      BigEndianInjective(a / 256, b / 256, size - 1);
    }
  }

  /** The byte at a place is the digit of its weight, the heaviest first. */
  lemma {:induction false} BigEndianDigit(value: nat, size: nat, i: nat)
    requires i < size
    ensures BigEndian(value, size)[i] == value / Power256(size - 1 - i) % 256
  {
    if i == size - 1 {
      assert Power256(0) == 1;
    } else {
      BigEndianDigit(value / 256, size - 1, i);
      DivideTwice(value, size - 2 - i);
    }
  }

  lemma DivideTwice(value: nat, n: nat)
    ensures value / 256 / Power256(n) == value / Power256(n + 1)
  {
    var p := Power256(n);
    assert Power256(n + 1) == 256 * p;
    DivisionTwice(value, p);
  }

  lemma DivisionTwice(value: nat, p: nat)
    requires p > 0
    ensures value / 256 / p == value / (256 * p)
  {
    var a := value / 256;
    var q := a / p;
    assert q * p <= a < q * p + p;
    assert 256 * (q * p) <= value < 256 * (q * p) + 256 * p;
    assert 256 * (q * p) == q * (256 * p);
    QuotientOf(value, 256 * p, q);
  }

  lemma QuotientOf(value: nat, p: nat, q: nat)
    requires p > 0 && q * p <= value < q * p + p
    ensures value / p == q
  {
    var d := value / p;
    assert d * p + value % p == value;
    MultiplesApart(d, q, p);
    MultiplesApart(q, d, p);
  }

  lemma {:induction false} MultiplesApart(a: nat, b: nat, p: nat)
    ensures a < b ==> a * p + p <= b * p
  {
    if a < b {
      assert b * p == (b - 1) * p + p;
      MultiplesApart(a, b - 1, p);
    }
  }

  const LENGTH_BYTES := 8

  /** `_length` does not raise. */
  predicate LengthOk(value: nat) {
    value < Power256(LENGTH_BYTES)
  }

  function Prefixed(data: seq<byte>): seq<byte> {
    BigEndian(|data|, LENGTH_BYTES) + data
  }

  function PathText(path: seq<string>): string {
    Join(path, "/")
  }

  function PathBytes(path: seq<string>): seq<byte> {
    Encode(PathText(path))
  }

  predicate ItemOk(item: Item) {
    && item.path != []
    && (forall name :: name in item.path ==> NameOk(name))
    && LengthOk(|PathBytes(item.path)|)
    && (item.data.Some? ==> LengthOk(|item.data.value|))
  }

  const DIRECTORY_TAG: byte := 68
  const FILE_TAG: byte := 70

  function ItemBytes(item: Item): seq<byte> {
    match item.data
    case None => [DIRECTORY_TAG] + Prefixed(PathBytes(item.path))
    case Some(data) => [FILE_TAG] + Prefixed(PathBytes(item.path)) + Prefixed(data)
  }

  function ItemsBytes(items: seq<Item>): seq<byte> {
    if items == [] then [] else ItemsBytes(items[..|items| - 1]) + ItemBytes(items[|items| - 1])
  }

  /** "tracefix-repository-fingerprint", NUL, "v1", NUL. */
  function Header(): seq<byte> {
    Encode("tracefix-repository-fingerprint") + [0] + Encode("v1") + [0]
  }

  /** The bytes hashed for a walk. */
  function Stream(items: seq<Item>): seq<byte> {
    Header() + ItemsBytes(items)
  }

  lemma {:induction false} ItemsBytesFirst(items: seq<Item>)
    requires items != []
    ensures ItemsBytes(items) == ItemBytes(items[0]) + ItemsBytes(items[1..])
  {
    hide ItemBytes;
    var n, rest := |items| - 1, items[1..];
    if n > 0 {
      var front := ItemsBytes(items[..n]);
      ItemsBytesFirst(items[..n]);
      assert items[..n][1..] == rest[..n - 1] && rest[n - 1] == items[n];
      var first, middle, last := ItemBytes(items[0]), ItemsBytes(rest[..n - 1]), ItemBytes(items[n]);
      assert ItemsBytes(items) == front + last && ItemsBytes(rest) == middle + last;
      assert (first + middle) + last == first + (middle + last);
    } else {
      assert items[..0] == [] && rest == [];
    }
  }

  lemma PrefixedCut(a: seq<byte>, b: seq<byte>, x: seq<byte>, y: seq<byte>)
    requires LengthOk(|a|) && LengthOk(|b|)
    requires Prefixed(a) + x == Prefixed(b) + y
    ensures a == b && x == y
  {
    hide BigEndian, Power256, Prefixed;
    PrefixedParts(a, x);
    PrefixedParts(b, y);
    BigEndianInjective(|a|, |b|, LENGTH_BYTES);
  }

  lemma PrefixedParts(data: seq<byte>, rest: seq<byte>)
    ensures var all := Prefixed(data) + rest;
            && |all| >= LENGTH_BYTES + |data| && all[..LENGTH_BYTES] == BigEndian(|data|, LENGTH_BYTES)
            && all[LENGTH_BYTES..LENGTH_BYTES + |data|] == data && all[LENGTH_BYTES + |data|..] == rest
  {
    hide BigEndian;
  }

  /** Joining names with slashes loses nothing. */
  lemma {:induction false} PartsOfPath(path: seq<string>)
    requires path != [] && forall name :: name in path ==> '/' !in name
    ensures PathParts(PathText(path)) == path
  {
    if |path| == 1 {
      PartsOfName(path[0], []);
      assert path[0] + [] == path[0];
    } else {
      PartsOfPath(path[1..]);
      PartsOfName(path[0], path[1..]);
      assert PathText(path) == path[0] + "/" + PathText(path[1..]);
    }
  }

  lemma {:induction false} PartsOfName(name: string, rest: seq<string>)
    requires '/' !in name
    requires rest != [] ==> PathParts(PathText(rest)) == rest
    ensures PathParts(if rest == [] then name else name + "/" + PathText(rest)) == [name] + rest
    decreases |name|
  {
    var text := if rest == [] then name else name + "/" + PathText(rest);
    if name == "" {
      if rest != [] {
        assert text[1..] == PathText(rest);
      }
    } else {
      assert name[0] in name && '/' !in name[1..];
      PartsOfName(name[1..], rest);
      assert text[1..] == if rest == [] then name[1..] else name[1..] + "/" + PathText(rest);
      assert [name[0]] + name[1..] == name;
    }
  }

  lemma PathBytesInjective(a: seq<string>, b: seq<string>)
    requires a != [] && b != [] && PathBytes(a) == PathBytes(b)
    requires forall name :: name in a + b ==> '/' !in name
    ensures a == b
  {
    hide PathText, Encode, Decode;
    DecodeEncode(PathText(a));
    DecodeEncode(PathText(b));
    assert forall name :: name in a || name in b ==> name in a + b;
    PartsOfPath(a);
    PartsOfPath(b);
  }

  /** What follows the path in the bytes of an item and in what comes after it. */
  function AfterPath(item: Item, rest: seq<byte>): seq<byte> {
    if item.data.None? then rest else Prefixed(item.data.value) + rest
  }

  lemma ItemHead(item: Item, rest: seq<byte>)
    ensures var all := ItemBytes(item) + rest;
            && all != [] && all[0] == (if item.data.None? then DIRECTORY_TAG else FILE_TAG)
            && all[1..] == Prefixed(PathBytes(item.path)) + AfterPath(item, rest)
  {
    hide PathBytes, Prefixed;
  }

  lemma ItemCut(a: Item, b: Item, x: seq<byte>, y: seq<byte>)
    requires ItemOk(a) && ItemOk(b) && ItemBytes(a) + x == ItemBytes(b) + y
    ensures a == b && x == y
  {
    hide PathBytes, Prefixed, LengthOk, ItemBytes, NameOk;
    ItemHead(a, x);
    ItemHead(b, y);
    PrefixedCut(PathBytes(a.path), PathBytes(b.path), AfterPath(a, x), AfterPath(b, y));
    NamesApart(a, b);
    PathBytesInjective(a.path, b.path);
    if a.data.Some? {
      PrefixedCut(a.data.value, b.data.value, x, y);
    }
  }

  lemma NamesApart(a: Item, b: Item)
    requires ItemOk(a) && ItemOk(b)
    ensures forall name :: name in a.path + b.path ==> '/' !in name
  {
    hide PathBytes, LengthOk;
    assert forall name :: name in a.path + b.path ==> name in a.path || name in b.path;
  }

  lemma {:induction false} ItemsBytesInjective(a: seq<Item>, b: seq<Item>)
    requires forall item :: item in a + b ==> ItemOk(item)
    requires ItemsBytes(a) == ItemsBytes(b)
    ensures a == b
    decreases |a|
  {
    hide ItemOk, ItemBytes;
    assert forall item :: item in a || item in b ==> item in a + b;
    if a != [] {
      ItemsBytesFirst(a);
      NotEmpty(a[0]);
    }
    if b != [] {
      ItemsBytesFirst(b);
      NotEmpty(b[0]);
    }
    if a != [] && b != [] {
      ItemCut(a[0], b[0], ItemsBytes(a[1..]), ItemsBytes(b[1..]));
      assert forall item :: item in a[1..] + b[1..] ==> item in a || item in b;
      ItemsBytesInjective(a[1..], b[1..]);
      assert a == [a[0]] + a[1..] && b == [b[0]] + b[1..];
    }
  }

  lemma NotEmpty(item: Item)
    ensures ItemBytes(item) != []
  {
  }

  /** The lengths of the tree fit the prefixes. */
  predicate TreeOk(kids: seq<Kid>) {
    ListingOk(kids) && forall item :: item in WalkRoot(kids) ==> ItemOk(item)
  }

  /** The bytes hashed are the same exactly for trees that contain the same, in whatever order they are listed. */
  lemma StreamIsContents(a: seq<Kid>, b: seq<Kid>)
    requires TreeOk(a) && TreeOk(b)
    ensures Stream(WalkRoot(a)) == Stream(WalkRoot(b)) <==> Contained([], a) == Contained([], b)
  {
    hide Header, WalkRoot, ItemOk, ItemsBytes, ListingOk, Contained;
    WalkIsContents(a, b);
    if Stream(WalkRoot(a)) == Stream(WalkRoot(b)) {
      assert Stream(WalkRoot(a))[|Header()|..] == ItemsBytes(WalkRoot(a));
      assert Stream(WalkRoot(b))[|Header()|..] == ItemsBytes(WalkRoot(b));
      assert forall item :: item in WalkRoot(a) + WalkRoot(b) ==> item in WalkRoot(a) || item in WalkRoot(b);
      ItemsBytesInjective(WalkRoot(a), WalkRoot(b));
    }
  }

  // ---------------------------------------------------------------- the bytes by example

  lemma {:induction false} AsciiBytes(s: string)
    requires forall c :: c in s ==> c < '\U{80}'
    ensures |Encode(s)| == |s| && forall i :: 0 <= i < |s| ==> Encode(s)[i] == s[i] as int
  {
    if s != "" {
      assert s[0] in s && forall c :: c in s[1..] ==> c in s;
      AsciiBytes(s[1..]);
      assert EncodeChar(s[0]) == [s[0] as int];
    }
  }

  /** The stream starts with the format's name and version in ASCII, each ended by a zero byte. */
  lemma HeaderBytes()
    ensures var name := "tracefix-repository-fingerprint";
            && |Header()| == |name| + 4
            && (forall i :: 0 <= i < |name| ==> Header()[i] == name[i] as int)
            && Header()[|name|..] == [0, 118, 49, 0] && 'v' as int == 118 && '1' as int == 49
  {
    hide Encode;
    var name := "tracefix-repository-fingerprint";
    AsciiBytes(name);
    AsciiBytes("v1");
    NameAndVersion(Encode(name), Encode("v1"));
  }

  lemma NameAndVersion(head: seq<byte>, version: seq<byte>)
    requires |version| == 2 && version[0] == 118 && version[1] == 49
    ensures (head + [0] + version + [0])[..|head|] == head && (head + [0] + version + [0])[|head|..] == [0, 118, 49, 0]
    ensures forall i :: 0 <= i < |head| ==> (head + [0] + version + [0])[i] == head[i]
  {
  }

  /** A directory is a D and its path, a file an F, its path and its contents, each with its length in eight bytes. */
  lemma EntryBytes(path: string, data: seq<byte>)
    requires |path| < 256 && |data| < 256 && forall c :: c in path ==> c < '\U{80}'
    ensures var name := Encode(path);
            && 'D' as int == 68 && 'F' as int == 70
            && ItemBytes(Item([path], None)) == [68] + ([0, 0, 0, 0, 0, 0, 0, |path|] + name)
            && ItemBytes(Item([path], Some(data)))
               == [70] + ([0, 0, 0, 0, 0, 0, 0, |path|] + name) + ([0, 0, 0, 0, 0, 0, 0, |data|] + data)
  {
    hide Encode, Prefixed;
    AsciiBytes(path);
    assert PathText([path]) == path;
    ShortPrefix(Encode(path));
    ShortPrefix(data);
  }

  lemma ShortPrefix(data: seq<byte>)
    requires |data| < 256
    ensures Prefixed(data) == [0, 0, 0, 0, 0, 0, 0, |data|] + data
  {
    var zeros := BigEndian(0, 7);
    ZeroBytes(7);
    assert zeros == [0, 0, 0, 0, 0, 0, 0];
    LastDigit(|data|, LENGTH_BYTES);
  }

  lemma LastDigit(n: nat, size: nat)
    requires n < 256 && size > 0
    ensures BigEndian(n, size) == BigEndian(0, size - 1) + [n]
  {
  }

  lemma {:induction false} ZeroBytes(size: nat)
    ensures forall i :: 0 <= i < size ==> BigEndian(0, size)[i] == 0
  {
    if size > 0 {
      ZeroBytes(size - 1);
    }
  }
}
