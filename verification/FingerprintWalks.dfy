/**
 The two fingerprint walks as they are written. The preparer lists the tree first and
 reads the files in a second pass (app/agent/preparation.py:158-201, 554-587); the static
 gate reads each file as it meets it, within limits (app/agent/static_checks.py:441-513,
 823-847). Both hash the same stream.
 */
module FingerprintWalks {
  import opened Wrappers
  import opened Sorting
  import opened Utf8
  import opened Fingerprint

  datatype Identity = Identity(path: seq<string>, isDirectory: bool)

  function Identities(items: seq<Item>): (r: seq<Identity>)
    ensures |r| == |items|
  {
    seq(|items|, i requires 0 <= i < |items| => Identity(items[i].path, items[i].data.None?))
  }

  /** No path folds to one met before it, nor to one in `seen`. */
  predicate FoldsFresh(fold: string -> string, seen: set<string>, items: seq<Item>)
    decreases |items|
  {
    items == [] ||
    (fold(PathText(items[0].path)) !in seen && FoldsFresh(fold, seen + {fold(PathText(items[0].path))}, items[1..]))
  }

  function Folds(fold: string -> string, items: seq<Item>): set<string> {
    set item | item in items :: fold(PathText(item.path))
  }

  lemma {:induction false} FoldsFreshAppend(fold: string -> string, seen: set<string>, a: seq<Item>, b: seq<Item>)
    ensures FoldsFresh(fold, seen, a + b) <==> FoldsFresh(fold, seen, a) && FoldsFresh(fold, seen + Folds(fold, a), b)
    ensures Folds(fold, a + b) == Folds(fold, a) + Folds(fold, b)
    decreases |a|
  {
    if a == [] {
      assert a + b == b && seen + Folds(fold, a) == seen;
    } else {
      assert (a + b)[1..] == a[1..] + b;
      FoldsFreshAppend(fold, seen + {fold(PathText(a[0].path))}, a[1..], b);
      assert Folds(fold, a) == {fold(PathText(a[0].path))} + Folds(fold, a[1..]);
      assert seen + Folds(fold, a) == seen + {fold(PathText(a[0].path))} + Folds(fold, a[1..]);
    }
  }

  lemma {:induction false} WalkLast(prefix: seq<string>, kids: seq<Kid>)
    requires kids != []
    ensures Walk(prefix, kids) == Walk(prefix, kids[..|kids| - 1]) + EntryItems(prefix, kids[|kids| - 1])
    decreases |kids|
  {
    hide EntryItems;
    var n := |kids| - 1;
    if n > 0 {
      WalkLast(prefix, kids[1..]);
      assert kids[1..][..n - 1] == kids[..n][1..];
      assert kids[1..][n - 1] == kids[n];
    }
  }

  lemma {:induction false} KidSmaller(kids: seq<Kid>, i: nat)
    requires i < |kids|
    ensures NodeSize(kids[i].node) < ListingSize(kids)
  {
    if i > 0 {
      KidSmaller(kids[1..], i - 1);
    }
  }

  /** The bytes of the file a path leads to. */
  function ReadAt(kids: seq<Kid>, path: seq<string>): Option<seq<byte>>
    decreases |path|, |kids|
  {
    if path == [] || kids == [] then None
    else if kids[0].name != path[0] then ReadAt(kids[1..], path)
    else
      match kids[0].node
      case FileNode(data) => if |path| == 1 then Some(data) else None
      case DirNode(sub) => ReadAt(sub, path[1..])
  }

  /** Looking a walked file up finds its bytes. */
  lemma {:induction false} ReadFindsContained(prefix: seq<string>, kids: seq<Kid>, item: Item)
    requires ListingOk(kids) && item in Contained(prefix, kids) && item.data.Some?
    ensures prefix <= item.path && ReadAt(kids, item.path[|prefix|..]) == item.data
    decreases kids
  {
    hide NameOk;
    var path := prefix + [kids[0].name];
    if item in EntryContained(prefix, kids[0]) {
      assert ListingOk(kids) ==> (kids[0].node.DirNode? ==> ListingOk(kids[0].node.kids));
      if kids[0].node.FileNode? {
        assert item.path[|prefix|..] == [kids[0].name];
      } else {
        ReadFindsContained(path, kids[0].node.kids, item);
        assert item.path[|prefix|..][1..] == item.path[|path|..];
        assert item.path[|prefix|] == path[|prefix|];
      }
    } else {
      ListingTail(kids);
      ContainedName(prefix, kids[1..], item);
      ReadFindsContained(prefix, kids[1..], item);
    }
  }

  lemma ListingTail(kids: seq<Kid>)
    requires ListingOk(kids) && kids != []
    ensures ListingOk(kids[1..])
  {
    hide NameOk;
  }

  lemma {:induction false} ContainedName(prefix: seq<string>, kids: seq<Kid>, item: Item)
    requires item in Contained(prefix, kids)
    ensures |item.path| > |prefix| && prefix <= item.path
    ensures exists i :: 0 <= i < |kids| && kids[i].name == item.path[|prefix|]
    decreases kids
  {
    if item in EntryContained(prefix, kids[0]) {
      var path := prefix + [kids[0].name];
      if item.path != path {
        ContainedName(path, kids[0].node.kids, item);
      }
      assert item.path[|prefix|] == path[|prefix|] == kids[0].name;
    } else {
      ContainedName(prefix, kids[1..], item);
      var i :| 0 <= i < |kids[1..]| && kids[1..][i].name == item.path[|prefix|];
      assert kids[i + 1].name == item.path[|prefix|];
    }
  }

  lemma ReadFindsWalked(kids: seq<Kid>, item: Item)
    requires ListingOk(kids) && item in WalkRoot(kids) && item.data.Some?
    ensures ReadAt(kids, item.path) == item.data
  {
    WalkMembers([], ByName(kids));
    ContainedByName([], kids);
    assert item in Members(WalkRoot(kids));
    ReadFindsContained([], kids, item);
    assert item.path[0..] == item.path;
  }

  predicate LengthsOk(items: seq<Item>) {
    forall item :: item in items ==> LengthOk(|PathBytes(item.path)|) && (item.data.Some? ==> LengthOk(|item.data.value|))
  }

  // ---------------------------------------------------------------- the preparer

  class Preparer {
    const fold: string -> string
    var identities: seq<Identity>
    var casefolded: set<string>

    constructor (fold: string -> string)
      ensures this.fold == fold && identities == [] && casefolded == {}
    {
      this.fold := fold;
      identities, casefolded := [], {};
    }

    /** `_snapshot`'s inner walk: fails on a case-insensitive alias. */
    method WalkListing(relative: seq<string>, scanned: seq<Kid>) returns (ok: bool)
      modifies this
      ensures var items := Walk(relative, ByName(scanned));
              && (ok <==> FoldsFresh(fold, old(casefolded), items))
              && (ok ==> identities == old(identities) + Identities(items) && casefolded == old(casefolded) + Folds(fold, items))
      decreases ListingSize(scanned)
    {
      hide FoldsFresh, Folds, PathText, ByName, Walk, EntryItems, Identities, ListingSize, NodeSize;
      var entries := ByName(scanned);
      ByNameSize(scanned);
      var i := 0;
      NothingFresh(fold, casefolded);
      NothingWalked(relative);
      assert entries[..0] == [];
      while i < |entries|
        invariant 0 <= i <= |entries|
        invariant FoldsFresh(fold, old(casefolded), Walk(relative, entries[..i]))
        invariant identities == old(identities) + Identities(Walk(relative, entries[..i]))
        invariant casefolded == old(casefolded) + Folds(fold, Walk(relative, entries[..i]))
      {
        var entry := entries[i];
        ghost var before := Walk(relative, entries[..i]);
        assert entries[..i + 1][..i] == entries[..i];
        WalkLast(relative, entries[..i + 1]);
        FoldsFreshAppend(fold, old(casefolded), before, EntryItems(relative, entry));
        RestFresh(fold, old(casefolded), relative, entries, i);
        KidSmaller(entries, i);
        ok := WalkEntry(relative, entry);
        if !ok {
          return;
        }
        IdentitiesAppend(before, EntryItems(relative, entry));
        i := i + 1;
      }
      assert entries[..i] == entries;
      ok := true;
    }

    method WalkEntry(relative: seq<string>, entry: Kid) returns (ok: bool)
      modifies this
      ensures var items := EntryItems(relative, entry);
              && (ok <==> FoldsFresh(fold, old(casefolded), items))
              && (ok ==> identities == old(identities) + Identities(items) && casefolded == old(casefolded) + Folds(fold, items))
      decreases NodeSize(entry.node) + 1, 0
    {
      hide PathText, ByName, Folds, FoldsFresh, Identities, Walk;
      var child := relative + [entry.name];
      var key := fold(PathText(child));
      ghost var item := Item(child, if entry.node.DirNode? then None else Some(entry.node.data));
      OneItem(fold, casefolded, item);
      if entry.node.DirNode? {
        ghost var sub := Walk(child, ByName(entry.node.kids));
        FoldsFreshAppend(fold, casefolded, [item], sub);
        IdentitiesAppend([item], sub);
      }
      if key in casefolded {
        return false;
      }
      casefolded := casefolded + {key};
      identities := identities + [Identity(child, entry.node.DirNode?)];
      ok := true;
      if entry.node.DirNode? {
        ok := WalkListing(child, entry.node.kids);
      }
    }
  }

  lemma NothingWalked(relative: seq<string>)
    ensures Walk(relative, []) == []
  {
  }

  lemma OneItem(fold: string -> string, seen: set<string>, item: Item)
    ensures Identities([item]) == [Identity(item.path, item.data.None?)]
    ensures Folds(fold, [item]) == {fold(PathText(item.path))}
    ensures FoldsFresh(fold, seen, [item]) <==> fold(PathText(item.path)) !in seen
  {
    hide PathText;
    assert [item][1..] == [];
  }

  lemma IdentitiesAppend(a: seq<Item>, b: seq<Item>)
    ensures Identities(a + b) == Identities(a) + Identities(b)
  {
  }

  lemma NothingFresh(fold: string -> string, seen: set<string>)
    ensures FoldsFresh(fold, seen, []) && Folds(fold, []) == {} && seen + {} == seen && Identities([]) == []
  {
  }

  /** Aliases among the first entries are aliases among all. */
  lemma {:induction false} RestFresh(fold: string -> string, seen: set<string>, relative: seq<string>,
      entries: seq<Kid>, i: nat)
    requires i < |entries|
    ensures FoldsFresh(fold, seen, Walk(relative, entries)) ==> FoldsFresh(fold, seen, Walk(relative, entries[..i + 1]))
    decreases |entries|
  {
    hide FoldsFresh, Folds, Walk, EntryItems;
    var n := |entries| - 1;
    if i < n {
      WalkLast(relative, entries);
      FoldsFreshAppend(fold, seen, Walk(relative, entries[..n]), EntryItems(relative, entries[n]));
      RestFresh(fold, seen, relative, entries[..n], i);
      assert entries[..n][..i + 1] == entries[..i + 1];
    } else {
      assert entries[..i + 1] == entries;
    }
  }

  lemma ItemsBytesLast(items: seq<Item>, i: nat)
    requires i < |items|
    ensures ItemsBytes(items[..i + 1]) == ItemsBytes(items[..i]) + ItemBytes(items[i])
  {
    assert items[..i + 1][..i] == items[..i];
  }

  /** The digest after one more entry, written piece by piece. */
  method Update(digest: seq<byte>, path: seq<string>, data: Option<seq<byte>>) returns (r: Option<seq<byte>>)
    ensures r.Some? <==> LengthOk(|PathBytes(path)|) && (data.Some? ==> LengthOk(|data.value|))
    ensures r.Some? ==> r.value == digest + ItemBytes(Item(path, data))
  {
    hide PathBytes, Prefixed, LengthOk;
    var pathBytes := PathBytes(path);
    if !LengthOk(|pathBytes|) {
      return None;
    }
    var updated := digest + [if data.None? then DIRECTORY_TAG else FILE_TAG];
    updated := updated + Prefixed(pathBytes);
    if data.Some? {
      if !LengthOk(|data.value|) {
        return None;
      }
      updated := updated + Prefixed(data.value);
    }
    r := Some(updated);
  }

  /** The digest loop of `RepositoryPreparer.fingerprint`: each file is read only now. */
  method HashListed(kids: seq<Kid>, identities: seq<Identity>, ghost items: seq<Item>) returns (r: Option<seq<byte>>)
    requires identities == Identities(items)
    requires forall item :: item in items && item.data.Some? ==> ReadAt(kids, item.path) == item.data
    ensures r.Some? <==> LengthsOk(items)
    ensures r.Some? ==> r.value == Stream(items)
  {
    hide ItemBytes, ItemsBytes, Header, ReadAt, PathBytes, LengthOk;
    var digest := Header();
    var i := 0;
    NothingHashed(items);
    while i < |identities|
      invariant 0 <= i <= |identities|
      invariant LengthsOk(items[..i])
      invariant digest == Header() + ItemsBytes(items[..i])
    {
      var identity := identities[i];
      ghost var item := items[i];
      assert item in items && item.path == identity.path && item.data.None? == identity.isDirectory;
      var data: Option<seq<byte>> := None;
      if !identity.isDirectory {
        data := ReadAt(kids, identity.path);
      }
      assert Item(identity.path, data) == item;
      var updated := Update(digest, identity.path, data);
      if updated.None? {
        return None;
      }
      ItemsBytesLast(items, i);
      assert items[..i + 1] == items[..i] + [item];
      digest := updated.value;
      i := i + 1;
    }
    assert items[..i] == items;
    r := Some(digest);
  }

  /** `RepositoryPreparer.fingerprint`: list, then read file by file into the digest. */
  method PreparerStream(fold: string -> string, kids: seq<Kid>) returns (r: Option<seq<byte>>)
    requires ListingOk(kids)
    ensures r.Some? <==> FoldsFresh(fold, {}, WalkRoot(kids)) && LengthsOk(WalkRoot(kids))
    ensures r.Some? ==> r.value == Stream(WalkRoot(kids))
  {
    hide FoldsFresh, WalkRoot, Walk, ByName, LengthsOk, Stream, ReadAt, Folds, ListingOk, Identities;
    var preparer := new Preparer(fold);
    RootIsWalk(kids);
    var ok := preparer.WalkListing([], kids);
    if !ok {
      return None;
    }
    forall item | item in WalkRoot(kids) && item.data.Some? ensures ReadAt(kids, item.path) == item.data {
      ReadFindsWalked(kids, item);
    }
    r := HashListed(kids, preparer.identities, WalkRoot(kids));
  }

  lemma RootIsWalk(kids: seq<Kid>)
    ensures WalkRoot(kids) == Walk([], ByName(kids))
    ensures [] + Identities(WalkRoot(kids)) == Identities(WalkRoot(kids))
  {
  }

  lemma NothingHashed(items: seq<Item>)
    ensures Header() + ItemsBytes(items[..0]) == Header()
  {
    hide Header;
  }

  // ---------------------------------------------------------------- the static gate

  const MAX_TREE_ENTRIES := 10_000
  const MAX_FILE_BYTES := 67_108_864
  const MAX_TREE_BYTES := 268_435_456

  /** What the static gate requires of a path besides its being new. */
  datatype SnapshotRules = SnapshotRules(fold: string -> string, validPath: string -> bool)

  function FileBytes(items: seq<Item>): nat {
    if items == [] then 0
    else
      var item := items[|items| - 1];
      FileBytes(items[..|items| - 1]) + (if item.data.Some? then |item.data.value| else 0)
  }

  predicate ItemAdmitted(rules: SnapshotRules, item: Item) {
    rules.validPath(PathText(item.path)) && (item.data.Some? ==> |item.data.value| <= MAX_FILE_BYTES)
  }

  /** After so many entries, bytes and identities these entries are within the limits. */
  predicate Admitted(rules: SnapshotRules, seen: set<string>, count: nat, total: nat, items: seq<Item>) {
    && FoldsFresh(rules.fold, seen, items)
    && (forall item :: item in items ==> ItemAdmitted(rules, item))
    && count + |items| <= MAX_TREE_ENTRIES
    && total + FileBytes(items) <= MAX_TREE_BYTES
  }

  lemma {:induction false} FileBytesAppend(a: seq<Item>, b: seq<Item>)
    ensures FileBytes(a + b) == FileBytes(a) + FileBytes(b)
    decreases |b|
  {
    if b == [] {
      assert a + b == a;
    } else {
      var n := |b| - 1;
      FileBytesAppend(a, b[..n]);
      assert (a + b)[..|a + b| - 1] == a + b[..n];
    }
  }

  lemma AdmittedAppend(rules: SnapshotRules, seen: set<string>, count: nat, total: nat, a: seq<Item>, b: seq<Item>)
    ensures Admitted(rules, seen, count, total, a + b) <==>
              && Admitted(rules, seen, count, total, a)
              && Admitted(rules, seen + Folds(rules.fold, a), count + |a|, total + FileBytes(a), b)
    ensures Folds(rules.fold, a + b) == Folds(rules.fold, a) + Folds(rules.fold, b)
    ensures FileBytes(a + b) == FileBytes(a) + FileBytes(b)
  {
    hide FoldsFresh, Folds, ItemAdmitted, FileBytes;
    FoldsFreshAppend(rules.fold, seen, a, b);
    FileBytesAppend(a, b);
    assert forall item :: item in a + b <==> item in a || item in b;
  }

  /** Entries beyond the limits among the first are beyond them among all. */
  lemma {:induction false} RestAdmitted(rules: SnapshotRules, seen: set<string>, count: nat, total: nat,
      prefix: seq<string>, children: seq<Kid>, i: nat)
    requires i < |children|
    ensures Admitted(rules, seen, count, total, Walk(prefix, children))
        ==> Admitted(rules, seen, count, total, Walk(prefix, children[..i + 1]))
    decreases |children|
  {
    hide Admitted, Folds, FileBytes, Walk, EntryItems;
    var n := |children| - 1;
    if i < n {
      WalkLast(prefix, children);
      AdmittedAppend(rules, seen, count, total, Walk(prefix, children[..n]), EntryItems(prefix, children[n]));
      RestAdmitted(rules, seen, count, total, prefix, children[..n], i);
      assert children[..n][..i + 1] == children[..i + 1];
    } else {
      assert children[..i + 1] == children;
    }
  }

  lemma NothingAdmitted(rules: SnapshotRules, seen: set<string>, count: nat, total: nat)
    requires count <= MAX_TREE_ENTRIES && total <= MAX_TREE_BYTES
    ensures Admitted(rules, seen, count, total, []) && Folds(rules.fold, []) == {} && FileBytes([]) == 0
  {
  }

  class SnapshotWalk {
    const rules: SnapshotRules
    var entries: seq<Item>
    var identities: set<string>
    var totalBytes: nat

    constructor (rules: SnapshotRules)
      ensures this.rules == rules && entries == [] && identities == {} && totalBytes == 0
    {
      this.rules := rules;
      entries, identities, totalBytes := [], {}, 0;
    }

    /** Within the limits. */
    ghost predicate Valid()
      reads this
    {
      |entries| <= MAX_TREE_ENTRIES && totalBytes <= MAX_TREE_BYTES
    }

    /** What recording these entries leaves. */
    twostate predicate Recorded(items: seq<Item>)
      reads this
    {
      && Valid()
      && entries == old(entries) + items
      && identities == old(identities) + Folds(rules.fold, items)
      && totalBytes == old(totalBytes) + FileBytes(items)
    }

    /** `snapshot`'s inner walk: it fails exactly beyond the limits. */
    method WalkDescriptor(prefix: seq<string>, scanned: seq<Kid>) returns (ok: bool)
      requires Valid()
      modifies this
      ensures var items := Walk(prefix, ByName(scanned));
              && (ok <==> Admitted(rules, old(identities), |old(entries)|, old(totalBytes), items))
              && (ok ==> Recorded(items))
      decreases ListingSize(scanned)
    {
      hide PathText, ByName, Walk, EntryItems, Admitted, Folds, FileBytes, ListingSize, NodeSize;
      var children := ByName(scanned);
      ByNameSize(scanned);
      assert children[..0] == [];
      NothingWalked(prefix);
      NothingAdmitted(rules, identities, |entries|, totalBytes);
      var i := 0;
      while i < |children|
        invariant 0 <= i <= |children|
        invariant Admitted(rules, old(identities), |old(entries)|, old(totalBytes), Walk(prefix, children[..i]))
        invariant Recorded(Walk(prefix, children[..i]))
      {
        ghost var before := Walk(prefix, children[..i]);
        assert children[..i + 1][..i] == children[..i];
        WalkLast(prefix, children[..i + 1]);
        AdmittedAppend(rules, old(identities), |old(entries)|, old(totalBytes), before, EntryItems(prefix, children[i]));
        RestAdmitted(rules, old(identities), |old(entries)|, old(totalBytes), prefix, children, i);
        KidSmaller(children, i);
        ok := WalkChild(prefix, children[i]);
        if !ok {
          return;
        }
        i := i + 1;
      }
      assert children[..i] == children;
      ok := true;
    }

    method WalkChild(prefix: seq<string>, child: Kid) returns (ok: bool)
      requires Valid()
      modifies this
      ensures var items := EntryItems(prefix, child);
              && (ok <==> Admitted(rules, old(identities), |old(entries)|, old(totalBytes), items))
              && (ok ==> Recorded(items))
      decreases NodeSize(child.node) + 1, 0
    {
      hide PathText, ByName, Walk, EntryItems, Admitted, Folds, FileBytes, ListingSize, NodeSize;
      var relative := prefix + [child.name];
      var text := PathText(relative);
      var item := Item(relative, if child.node.DirNode? then None else Some(child.node.data));
      HeadAdmitted(rules, identities, |entries|, totalBytes, item);
      EntryHead(prefix, child);
      KidsSmaller(child);
      if child.node.DirNode? {
        AdmittedAppend(rules, identities, |entries|, totalBytes, [item], Walk(relative, ByName(child.node.kids)));
      }
      if !rules.validPath(text) {
        return false;
      }
      var identity := rules.fold(text);
      if identity in identities || |entries| >= MAX_TREE_ENTRIES {
        return false;
      }
      identities := identities + {identity};
      match child.node {
        case DirNode(sub) =>
          entries := entries + [item];
          ok := WalkDescriptor(relative, sub);
        case FileNode(data) =>
          if |data| > MAX_FILE_BYTES || totalBytes + |data| > MAX_TREE_BYTES {
            return false;
          }
          totalBytes := totalBytes + |data|;
          entries := entries + [item];
          ok := true;
      }
    }
  }

  lemma HeadAdmitted(rules: SnapshotRules, seen: set<string>, count: nat, total: nat, item: Item)
    requires total <= MAX_TREE_BYTES
    ensures var size := if item.data.Some? then |item.data.value| else 0;
            && (Admitted(rules, seen, count, total, [item]) <==>
                  && rules.validPath(PathText(item.path)) && rules.fold(PathText(item.path)) !in seen
                  && count < MAX_TREE_ENTRIES && size <= MAX_FILE_BYTES && total + size <= MAX_TREE_BYTES)
            && Folds(rules.fold, [item]) == {rules.fold(PathText(item.path))}
            && FileBytes([item]) == size
  {
    hide PathText;
    assert [item][..0] == [] && [item][1..] == [];
    assert forall other :: other in [item] <==> other == item;
    assert (forall other :: other in [item] ==> ItemAdmitted(rules, other)) <==> ItemAdmitted(rules, item);
    assert [item][|[item]| - 1] == item && FileBytes([]) == 0;
    assert FoldsFresh(rules.fold, seen, [item]) <==> rules.fold(PathText(item.path)) !in seen;
  }

  /** An entry, then what is below it. */
  lemma EntryHead(prefix: seq<string>, child: Kid)
    ensures var path := prefix + [child.name];
            EntryItems(prefix, child) ==
              if child.node.DirNode? then [Item(path, None)] + Walk(path, ByName(child.node.kids))
              else [Item(path, Some(child.node.data))]
  {
  }

  lemma KidsSmaller(child: Kid)
    ensures child.node.DirNode? ==> ListingSize(child.node.kids) == NodeSize(child.node)
  {
  }

  /** `_fingerprint_snapshot`. */
  method HashSnapshot(entries: seq<Item>) returns (r: Option<seq<byte>>)
    ensures r.Some? <==> LengthsOk(entries)
    ensures r.Some? ==> r.value == Stream(entries)
  {
    hide ItemBytes, ItemsBytes, Header, PathBytes, LengthOk;
    var digest := Header();
    var i := 0;
    NothingHashed(entries);
    while i < |entries|
      invariant 0 <= i <= |entries|
      invariant LengthsOk(entries[..i])
      invariant digest == Header() + ItemsBytes(entries[..i])
    {
      assert Item(entries[i].path, entries[i].data) == entries[i];
      var updated := Update(digest, entries[i].path, entries[i].data);
      if updated.None? {
        return None;
      }
      ItemsBytesLast(entries, i);
      assert entries[..i + 1] == entries[..i] + [entries[i]];
      digest := updated.value;
      i := i + 1;
    }
    assert entries[..i] == entries;
    r := Some(digest);
  }

  /** A fresh snapshot and its digest. */
  method SnapshotStream(rules: SnapshotRules, kids: seq<Kid>) returns (r: Option<seq<byte>>)
    ensures r.Some? <==> Admitted(rules, {}, 0, 0, WalkRoot(kids)) && LengthsOk(WalkRoot(kids))
    ensures r.Some? ==> r.value == Stream(WalkRoot(kids))
  {
    hide WalkRoot, Walk, ByName, Stream, LengthsOk, FileBytes, Admitted, Folds;
    var snapshot := new SnapshotWalk(rules);
    RootIsWalk(kids);
    var ok := snapshot.WalkDescriptor([], kids);
    if !ok {
      return None;
    }
    assert snapshot.entries == [] + Walk([], ByName(kids)) == WalkRoot(kids);
    r := HashSnapshot(snapshot.entries);
  }

  lemma {:induction false} FreshExactly(fold: string -> string, seen: set<string>, items: seq<Item>)
    ensures FoldsFresh(fold, seen, items) <==>
              && (forall i :: 0 <= i < |items| ==> fold(PathText(items[i].path)) !in seen)
              && (forall i, j :: 0 <= i < j < |items| ==> fold(PathText(items[i].path)) != fold(PathText(items[j].path)))
    decreases |items|
  {
    hide PathText;
    if items != [] {
      var rest := items[1..];
      FreshExactly(fold, seen + {fold(PathText(items[0].path))}, rest);
      assert forall i :: 0 <= i < |rest| ==> rest[i] == items[i + 1];
      assert forall i :: 0 < i < |items| ==> items[i] == rest[i - 1];
    }
  }

  /** The contents of the files, one after the other. */
  function Contents(items: seq<Item>): seq<byte> {
    if items == [] then []
    else (if items[0].data.Some? then items[0].data.value else []) + Contents(items[1..])
  }

  lemma {:induction false} ContentsAppend(items: seq<Item>, item: Item)
    ensures Contents(items + [item]) == Contents(items) + if item.data.Some? then item.data.value else []
  {
    if items == [] {
      assert items + [item] == [item] && [item][1..] == [];
    } else {
      assert (items + [item])[1..] == items[1..] + [item];
      ContentsAppend(items[1..], item);
    }
  }

  lemma {:induction false} FileBytesCount(items: seq<Item>)
    ensures FileBytes(items) == |Contents(items)|
  {
    if items != [] {
      var n := |items| - 1;
      FileBytesCount(items[..n]);
      ContentsAppend(items[..n], items[n]);
      assert items == items[..n] + [items[n]];
    }
  }

  /** The walks the gate accepts: valid paths, no two that fold together, and its limits on entries and bytes. */
  lemma AdmittedExactly(rules: SnapshotRules, items: seq<Item>)
    ensures Admitted(rules, {}, 0, 0, items) <==>
              && |items| <= 10_000 && |Contents(items)| <= 268_435_456
              && (forall item :: item in items ==>
                   rules.validPath(PathText(item.path)) && (item.data.Some? ==> |item.data.value| <= 67_108_864))
              && forall i, j :: 0 <= i < j < |items| ==> rules.fold(PathText(items[i].path)) != rules.fold(PathText(items[j].path))
  {
    hide FoldsFresh, FileBytes, Contents, PathText;
    FreshExactly(rules.fold, {}, items);
    FileBytesCount(items);
  }

  /** A length fits its prefix below two to the 64. */
  lemma LengthExactly(value: nat)
    ensures LengthOk(value) <==> value < 0x1_0000_0000_0000_0000
  {
    assert Power256(4) == 0x1_0000_0000;
    assert Power256(8) == 256 * (256 * (256 * (256 * Power256(4))));
  }
}
