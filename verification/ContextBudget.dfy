/**
 Fitting context into a byte budget: candidates are sorted, then dropped from the end, each
 leaving an omission record, until the rendered package fits
 (app/agent/context.py:1079-1184; app/agent/schemas.py:230-250, 289-293, 373-459).
 */
module ContextBudget {
  import opened Wrappers
  import opened TextLines
  import opened Sorting
  import opened Utf8

  datatype Kind =
    | Issue | Classification | ProtectedPathPolicy | FailureTrace | VisibleTest | Source
    | Definition | Import | TypeDefinition | RepositoryInstruction

  function KindText(kind: Kind): string {
    match kind
    case Issue => "issue"
    case Classification => "classification"
    case ProtectedPathPolicy => "protected_path_policy"
    case FailureTrace => "failure_trace"
    case VisibleTest => "visible_test"
    case Source => "source"
    case Definition => "definition"
    case Import => "import"
    case TypeDefinition => "type_definition"
    case RepositoryInstruction => "repository_instruction"
  }

  datatype Reason = Budget | AstParseFailed | Generated | Secret | UnsafePath | Unreadable | Unrelated

  function ReasonText(reason: Reason): string {
    match reason
    case Budget => "budget"
    case AstParseFailed => "ast_parse_failed"
    case Generated => "generated"
    case Secret => "secret"
    case UnsafePath => "unsafe_path"
    case Unreadable => "unreadable"
    case Unrelated => "unrelated"
  }

  datatype Item = Item(
    path: string, kind: Kind, content: string, priority: nat, line: nat, truncated: bool, original: nat)

  datatype Omission = Omission(path: string, kind: Kind, reason: Reason)

  // ---------------------------------------------------------------- rendering

  function Flag(b: bool): string {
    if b then "1" else "0"
  }

  function ItemHead(item: Item): string {
    "[" + KindText(item.kind) + "|" + item.path
  }

  function ItemNumbers(item: Item): string {
    "|p=" + Decimal(item.priority) + "|l=" + Decimal(item.line) + "|t=" + Flag(item.truncated) + "|b=" + Decimal(item.original)
  }

  /** `ContextItem.downstream_text`. */
  function ItemText(item: Item): string {
    ItemHead(item) + ItemNumbers(item) + "]\n" + item.content + "\n"
  }

  function OmissionText(omission: Omission): string {
    "[omission|" + omission.path + "|" + KindText(omission.kind) + "|" + ReasonText(omission.reason) + "]\n"
  }

  function HeaderText(caseId: string, limit: nat, omitted: bool): string {
    "[context|" + caseId + "|limit=" + Decimal(limit) + "|omitted=" + Flag(omitted) + "]\n"
  }

  function ItemsText(items: seq<Item>): string {
    if items == [] then "" else ItemsText(items[..|items| - 1]) + ItemText(items[|items| - 1])
  }

  function OmissionsText(omissions: seq<Omission>): string {
    if omissions == [] then "" else OmissionText(omissions[0]) + OmissionsText(omissions[1..])
  }

  /** `ContextPackage.render_downstream`. */
  function Render(caseId: string, items: seq<Item>, omissions: seq<Omission>, limit: nat, omitted: bool): string {
    HeaderText(caseId, limit, omitted) + ItemsText(items) + OmissionsText(omissions)
  }

  function Size(s: string): nat {
    |Encode(s)|
  }

  lemma SizeAppend(a: string, b: string)
    ensures Size(a + b) == Size(a) + Size(b)
  {
    EncodeAppend(a, b);
  }

  lemma AsciiSize(s: string)
    requires forall c :: c in s ==> c < '\U{80}'
    ensures Size(s) == |s|
  {
    AsciiLength(s);
  }

  lemma DecimalSize(n: nat)
    ensures Size(Decimal(n)) == |Decimal(n)| >= 1
  {
    hide Decimal;
    AsciiSize(Decimal(n));
  }

  // ---------------------------------------------------------------- sizes

  lemma PairSize(a: string, x: string, b: string, y: string)
    ensures Size(a + x + b + y) == Size(a) + Size(x) + Size(b) + Size(y)
  {
    hide Size;
    SizeAppend(a + x + b, y);
    SizeAppend(a + x, b);
    SizeAppend(a, x);
  }

  lemma ItemNumbersSize(item: Item)
    ensures Size(ItemNumbers(item)) == 13 + |Decimal(item.priority)| + |Decimal(item.line)| + |Decimal(item.original)|
  {
    hide Size, Decimal, Encode;
    DecimalSize(item.priority);
    DecimalSize(item.line);
    DecimalSize(item.original);
    AsciiSize("|p=");
    AsciiSize("|l=");
    AsciiSize("|t=");
    AsciiSize("|b=");
    AsciiSize(Flag(item.truncated));
    var left := "|p=" + Decimal(item.priority) + "|l=" + Decimal(item.line);
    var flag := Flag(item.truncated);
    PairSize("|p=", Decimal(item.priority), "|l=", Decimal(item.line));
    SizeAppend(left + "|t=" + flag + "|b=", Decimal(item.original));
    SizeAppend(left + "|t=" + flag, "|b=");
    SizeAppend(left + "|t=", flag);
    SizeAppend(left, "|t=");
  }

  /** What an item takes. */
  lemma ItemTextSize(item: Item)
    ensures Size(ItemText(item)) == 18 + Size(KindText(item.kind)) + Size(item.path) + Size(item.content)
              + |Decimal(item.priority)| + |Decimal(item.line)| + |Decimal(item.original)|
  {
    hide Size, Decimal, Encode, KindText, ItemNumbers;
    ItemNumbersSize(item);
    AsciiSize("[");
    AsciiSize("|");
    AsciiSize("]\n");
    AsciiSize("\n");
    PairSize("[", KindText(item.kind), "|", item.path);
    var front := ItemHead(item) + ItemNumbers(item) + "]\n";
    SizeAppend(ItemHead(item), ItemNumbers(item));
    SizeAppend(ItemHead(item) + ItemNumbers(item), "]\n");
    SizeAppend(front, item.content);
    SizeAppend(front + item.content, "\n");
  }

  /** What an omission record takes. */
  lemma OmissionTextSize(omission: Omission)
    ensures Size(OmissionText(omission))
         == 14 + Size(omission.path) + Size(KindText(omission.kind)) + Size(ReasonText(omission.reason))
  {
    hide Size, Encode, KindText, ReasonText;
    AsciiSize("[omission|");
    AsciiSize("|");
    AsciiSize("]\n");
    var path, kind, reason := omission.path, KindText(omission.kind), ReasonText(omission.reason);
    PairSize("[omission|", path, "|", kind);
    SizeAppend("[omission|" + path + "|" + kind, "|");
    SizeAppend("[omission|" + path + "|" + kind + "|", reason);
    SizeAppend("[omission|" + path + "|" + kind + "|" + reason, "]\n");
  }

  function HeaderSize(caseId: string, limit: nat): nat {
    28 + Size(caseId) + |Decimal(limit)|
  }

  lemma HeaderTextSize(caseId: string, limit: nat, omitted: bool)
    ensures Size(HeaderText(caseId, limit, omitted)) == HeaderSize(caseId, limit)
  {
    hide Size, Decimal, Encode;
    DecimalSize(limit);
    AsciiSize("[context|");
    AsciiSize("|limit=");
    AsciiSize("|omitted=");
    AsciiSize(Flag(omitted));
    AsciiSize("]\n");
    var left := "[context|" + caseId + "|limit=" + Decimal(limit);
    PairSize("[context|", caseId, "|limit=", Decimal(limit));
    SizeAppend(left, "|omitted=");
    SizeAppend(left + "|omitted=", Flag(omitted));
    SizeAppend(left + "|omitted=" + Flag(omitted), "]\n");
  }

  function ItemsSize(items: seq<Item>): nat {
    if items == [] then 0 else ItemsSize(items[..|items| - 1]) + Size(ItemText(items[|items| - 1]))
  }

  function OmissionsSize(omissions: seq<Omission>): nat {
    if omissions == [] then 0 else Size(OmissionText(omissions[0])) + OmissionsSize(omissions[1..])
  }

  lemma {:induction false} ItemsTextSize(items: seq<Item>)
    ensures Size(ItemsText(items)) == ItemsSize(items)
  {
    hide ItemText;
    if items != [] {
      var n := |items| - 1;
      ItemsTextSize(items[..n]);
      SizeAppend(ItemsText(items[..n]), ItemText(items[n]));
    }
  }

  lemma {:induction false} OmissionsTextSize(omissions: seq<Omission>)
    ensures Size(OmissionsText(omissions)) == OmissionsSize(omissions)
  {
    hide OmissionText;
    if omissions != [] {
      OmissionsTextSize(omissions[1..]);
      SizeAppend(OmissionText(omissions[0]), OmissionsText(omissions[1..]));
    }
  }

  /** The package takes its header, its items and its records, whatever the flag says. */
  lemma RenderSize(caseId: string, items: seq<Item>, omissions: seq<Omission>, limit: nat, omitted: bool)
    ensures Size(Render(caseId, items, omissions, limit, omitted))
         == HeaderSize(caseId, limit) + ItemsSize(items) + OmissionsSize(omissions)
  {
    hide Size, ItemsText, OmissionsText, ItemsSize, OmissionsSize, HeaderSize, HeaderText;
    HeaderTextSize(caseId, limit, omitted);
    ItemsTextSize(items);
    OmissionsTextSize(omissions);
    SizeAppend(HeaderText(caseId, limit, omitted), ItemsText(items));
    SizeAppend(HeaderText(caseId, limit, omitted) + ItemsText(items), OmissionsText(omissions));
  }

  lemma {:induction false} OmissionsSizeAppend(a: seq<Omission>, b: seq<Omission>)
    ensures OmissionsSize(a + b) == OmissionsSize(a) + OmissionsSize(b)
  {
    hide Size, OmissionText;
    if a == [] {
      assert a + b == b;
    } else {
      OmissionsSizeAppend(a[1..], b);
      assert (a + b)[1..] == a[1..] + b;
    }
  }

  lemma {:induction false} InsertOmissionSize(x: Omission, s: seq<Omission>, leq: (Omission, Omission) -> bool)
    ensures OmissionsSize(Insert(x, s, leq)) == Size(OmissionText(x)) + OmissionsSize(s)
  {
    hide Size, OmissionText;
    var r := Insert(x, s, leq);
    if s == [] || leq(x, s[0]) {
      assert r[1..] == s;
    } else {
      InsertOmissionSize(x, s[1..], leq);
      assert r[1..] == Insert(x, s[1..], leq);
    }
  }

  lemma {:induction false} SortOmissionSize(s: seq<Omission>, leq: (Omission, Omission) -> bool)
    ensures OmissionsSize(Sort(s, leq)) == OmissionsSize(s)
  {
    hide Size, OmissionText;
    if s != [] {
      SortOmissionSize(s[1..], leq);
      InsertOmissionSize(s[0], Sort(s[1..], leq), leq);
    }
  }

  // ---------------------------------------------------------------- orders

  /** (priority, case-folded path, line, kind), compared in turn. */
  predicate ItemLeq(fold: string -> string, a: Item, b: Item) {
    if a.priority != b.priority then a.priority < b.priority
    else if fold(a.path) != fold(b.path) then StringLeq(fold(a.path), fold(b.path))
    else if a.line != b.line then a.line < b.line
    else StringLeq(KindText(a.kind), KindText(b.kind))
  }

  /** (case-folded path, kind, reason), compared in turn. */
  predicate OmissionLeq(fold: string -> string, a: Omission, b: Omission) {
    if fold(a.path) != fold(b.path) then StringLeq(fold(a.path), fold(b.path))
    else if KindText(a.kind) != KindText(b.kind) then StringLeq(KindText(a.kind), KindText(b.kind))
    else StringLeq(ReasonText(a.reason), ReasonText(b.reason))
  }

  function ItemOrder(fold: string -> string): (Item, Item) -> bool {
    (a, b) => ItemLeq(fold, a, b)
  }

  function OmissionOrder(fold: string -> string): (Omission, Omission) -> bool {
    (a, b) => OmissionLeq(fold, a, b)
  }

  lemma ItemsTotal(fold: string -> string)
    ensures TotalPreorder(ItemOrder(fold))
  {
    hide StringLeq, KindText;
    var leq := ItemOrder(fold);
    forall a, b ensures leq(a, b) || leq(b, a) {
      StringTotal(fold(a.path), fold(b.path));
      StringTotal(KindText(a.kind), KindText(b.kind));
    }
    forall a, b, c | leq(a, b) && leq(b, c) ensures leq(a, c) {
      if a.priority == b.priority == c.priority {
        StringTotal(fold(a.path), fold(b.path));
        StringTotal(fold(b.path), fold(c.path));
        StringsBetween(fold(a.path), fold(b.path), fold(c.path));
        if fold(a.path) == fold(b.path) == fold(c.path) && a.line == b.line == c.line {
          StringTransitive(KindText(a.kind), KindText(b.kind), KindText(c.kind));
        }
      }
    }
  }

  lemma OmissionsTotal(fold: string -> string)
    ensures TotalPreorder(OmissionOrder(fold))
  {
    hide StringLeq, KindText, ReasonText;
    var leq := OmissionOrder(fold);
    forall a, b ensures leq(a, b) || leq(b, a) {
      StringTotal(fold(a.path), fold(b.path));
      StringTotal(KindText(a.kind), KindText(b.kind));
      StringTotal(ReasonText(a.reason), ReasonText(b.reason));
    }
    forall a, b, c | leq(a, b) && leq(b, c) ensures leq(a, c) {
      StringTotal(fold(a.path), fold(b.path));
      StringTotal(fold(b.path), fold(c.path));
      StringsBetween(fold(a.path), fold(b.path), fold(c.path));
      if fold(a.path) == fold(b.path) == fold(c.path) {
        StringTotal(KindText(a.kind), KindText(b.kind));
        StringTotal(KindText(b.kind), KindText(c.kind));
        StringsBetween(KindText(a.kind), KindText(b.kind), KindText(c.kind));
        if a.kind == b.kind == c.kind || KindText(a.kind) == KindText(b.kind) == KindText(c.kind) {
          StringTransitive(ReasonText(a.reason), ReasonText(b.reason), ReasonText(c.reason));
        }
      }
    }
  }

  // ---------------------------------------------------------------- candidates

  predicate SameItemKey(fold: string -> string, a: Item, b: Item) {
    fold(a.path) == fold(b.path) && a.kind == b.kind && a.line == b.line
  }

  predicate SameOmissionKey(fold: string -> string, a: Omission, b: Omission) {
    fold(a.path) == fold(b.path) && a.kind == b.kind && a.reason == b.reason
  }

  predicate DistinctItems(fold: string -> string, items: seq<Item>) {
    Apart(items, (a, b) => SameItemKey(fold, a, b))
  }

  predicate DistinctOmissions(fold: string -> string, omissions: seq<Omission>) {
    Apart(omissions, (a, b) => SameOmissionKey(fold, a, b))
  }

  /** `_append_item`: what candidates are collected with. */
  function AppendItem(fold: string -> string, items: seq<Item>, item: Item): (r: seq<Item>)
    ensures DistinctItems(fold, items) ==> DistinctItems(fold, r)
    ensures items <= r && exists i :: 0 <= i < |r| && SameItemKey(fold, r[i], item)
  {
    if i :| 0 <= i < |items| && SameItemKey(fold, items[i], item) then items
    else
      assert SameItemKey(fold, (items + [item])[|items|], item);
      items + [item]
  }

  /** `_append_omission`. */
  function AppendOmission(fold: string -> string, omissions: seq<Omission>, omission: Omission): (r: seq<Omission>)
    ensures DistinctOmissions(fold, omissions) ==> DistinctOmissions(fold, r)
    ensures omissions <= r && exists i :: 0 <= i < |r| && SameOmissionKey(fold, r[i], omission)
  {
    if i :| 0 <= i < |omissions| && SameOmissionKey(fold, omissions[i], omission) then omissions
    else
      assert SameOmissionKey(fold, (omissions + [omission])[|omissions|], omission);
      omissions + [omission]
  }

  // ---------------------------------------------------------------- what fits

  function Dropped(item: Item): Omission {
    Omission(item.path, item.kind, Budget)
  }

  function Records(items: seq<Item>): (r: seq<Omission>)
    ensures |r| == |items| && forall i :: 0 <= i < |r| ==> r[i] == Dropped(items[i])
  {
    if items == [] then [] else [Dropped(items[0])] + Records(items[1..])
  }

  /** The size when the first `n` candidates are kept and the others recorded. */
  function Total(caseId: string, limit: nat, ordered: seq<Item>, initial: seq<Omission>, n: nat): nat
    requires n <= |ordered|
  {
    HeaderSize(caseId, limit) + ItemsSize(ordered[..n]) + OmissionsSize(initial) + OmissionsSize(Records(ordered[n..]))
  }

  lemma BudgetSize()
    ensures Size(ReasonText(Budget)) == 6
  {
    AsciiSize("budget");
  }

  /** A record is smaller than the item it replaces. */
  lemma RecordSmaller(item: Item)
    ensures Size(OmissionText(Dropped(item))) < Size(ItemText(item))
  {
    hide Size, KindText, ReasonText, Decimal, ItemText, OmissionText;
    ItemTextSize(item);
    OmissionTextSize(Dropped(item));
    BudgetSize();
    DecimalSize(item.priority);
    DecimalSize(item.line);
    DecimalSize(item.original);
  }

  /** Dropping the last kept candidate makes the package smaller. */
  lemma DropShrinks(caseId: string, limit: nat, ordered: seq<Item>, initial: seq<Omission>, n: nat)
    requires 0 < n <= |ordered|
    ensures Total(caseId, limit, ordered, initial, n - 1) < Total(caseId, limit, ordered, initial, n)
  {
    hide Size, ItemText, OmissionText, HeaderSize;
    RecordSmaller(ordered[n - 1]);
    assert ordered[..n][..n - 1] == ordered[..n - 1];
    var rest := ordered[n - 1..];
    assert rest[1..] == ordered[n..];
    assert Records(rest)[1..] == Records(rest[1..]);
  }

  lemma {:induction false} FewerSmaller(caseId: string, limit: nat, ordered: seq<Item>, initial: seq<Omission>,
      m: nat, n: nat)
    requires m <= n <= |ordered|
    ensures Total(caseId, limit, ordered, initial, m) <= Total(caseId, limit, ordered, initial, n)
    decreases n
  {
    hide Total;
    if m < n {
      DropShrinks(caseId, limit, ordered, initial, n);
      FewerSmaller(caseId, limit, ordered, initial, m, n - 1);
    }
  }

  /** How many of the sorted candidates survive, dropping from the end while that is allowed. */
  function Kept(caseId: string, limit: nat, ordered: seq<Item>, initial: seq<Omission>, n: nat): (r: Option<nat>)
    requires n <= |ordered|
    ensures r.Some? ==> r.value <= n && Total(caseId, limit, ordered, initial, r.value) <= limit
    decreases n
  {
    if Total(caseId, limit, ordered, initial, n) <= limit then Some(n)
    else if n == 0 || ordered[n - 1].priority == 0 then None
    else Kept(caseId, limit, ordered, initial, n - 1)
  }

  /** How many of the sorted candidates may not be dropped. */
  function Mandatory(ordered: seq<Item>): (m: nat)
    ensures m <= |ordered|
    ensures m > 0 ==> ordered[m - 1].priority == 0
    ensures forall i :: m <= i < |ordered| ==> ordered[i].priority != 0
  {
    if ordered == [] then 0
    else if ordered[|ordered| - 1].priority == 0 then |ordered|
    else Mandatory(ordered[..|ordered| - 1])
  }

  /** Every priority-0 candidate stays; what stays is the longest beginning that fits; nothing does
      exactly when the mandatory candidates alone do not. */
  lemma {:induction false} KeptIsLongest(caseId: string, limit: nat, ordered: seq<Item>, initial: seq<Omission>, n: nat)
    requires Mandatory(ordered) <= n <= |ordered|
    ensures var kept := Kept(caseId, limit, ordered, initial, n);
            && (kept.None? <==> Total(caseId, limit, ordered, initial, Mandatory(ordered)) > limit)
            && (kept.Some? ==>
              && Mandatory(ordered) <= kept.value
              && forall m :: kept.value < m <= n ==> Total(caseId, limit, ordered, initial, m) > limit)
    decreases n
  {
    hide Total, Mandatory;
    var m := Mandatory(ordered);
    FewerSmaller(caseId, limit, ordered, initial, m, n);
    if Total(caseId, limit, ordered, initial, n) > limit && n > m {
      KeptIsLongest(caseId, limit, ordered, initial, n - 1);
    }
  }

  /** A larger limit never keeps fewer candidates. */
  lemma LargerLimitKeepsMore(caseId: string, small: nat, large: nat, ordered: seq<Item>, initial: seq<Omission>)
    requires small <= large
    requires Kept(caseId, small, ordered, initial, |ordered|).Some?
    ensures var kept := Kept(caseId, large, ordered, initial, |ordered|);
            kept.Some? && kept.value >= Kept(caseId, small, ordered, initial, |ordered|).value
  {
    hide Mandatory, Kept, Size, ItemsSize, OmissionsSize, Records, Decimal;
    var all, m := |ordered|, Mandatory(ordered);
    KeptIsLongest(caseId, small, ordered, initial, all);
    KeptIsLongest(caseId, large, ordered, initial, all);
    var n := Kept(caseId, small, ordered, initial, all).value;
    DecimalGrowth(small, large);
    assert Total(caseId, large, ordered, initial, n) <= large;
    FewerSmaller(caseId, large, ordered, initial, m, n);
  }

  // ---------------------------------------------------------------- the package

  datatype ContextPackage = ContextPackage(
    caseId: string, items: seq<Item>, omissions: seq<Omission>, limit: nat, actual: nat, omitted: bool)

  predicate AnythingOmitted(items: seq<Item>, omissions: seq<Omission>) {
    (exists i :: 0 <= i < |items| && items[i].truncated) || (exists i :: 0 <= i < |omissions| && omissions[i].reason == Budget)
  }

  /** What the package must show: an issue, this analysis and this policy. */
  datatype Required = Required(analysis: string, policy: string)

  predicate Shows(items: seq<Item>, kind: Kind, content: string) {
    exists i :: 0 <= i < |items| && items[i].kind == kind && items[i].content == content
  }

  /** `ContextPackage.validate_accounting_and_order`. */
  predicate Accepts(fold: string -> string, required: Required, p: ContextPackage) {
    && p.actual == Size(Render(p.caseId, p.items, p.omissions, p.limit, p.omitted))
    && p.actual <= p.limit
    && Sorted(p.items, ItemOrder(fold))
    && p.omitted == AnythingOmitted(p.items, p.omissions)
    && DistinctItems(fold, p.items)
    && Sorted(p.omissions, OmissionOrder(fold))
    && DistinctOmissions(fold, p.omissions)
    && (exists i :: 0 <= i < |p.items| && p.items[i].kind == Issue)
    && Shows(p.items, Classification, required.analysis)
    && Shows(p.items, ProtectedPathPolicy, required.policy)
  }

  datatype Outcome = Packaged(package: ContextPackage) | Rejected(package: ContextPackage) | Overflow

  /** `next((item for item in reversed(included) if item.priority != 0), None)`. */
  function LastDroppable(included: seq<Item>): (r: Option<Item>)
    ensures r.Some? ==> r.value in included && r.value.priority != 0
    ensures r.None? ==> forall item :: item in included ==> item.priority == 0
    ensures included != [] && included[|included| - 1].priority != 0 ==> r == Some(included[|included| - 1])
  {
    if included == [] then None
    else if included[|included| - 1].priority != 0 then Some(included[|included| - 1])
    else LastDroppable(included[..|included| - 1])
  }

  /** `included.remove(item)`: the first equal one goes. */
  function Remove(included: seq<Item>, item: Item): seq<Item>
    requires item in included
  {
    if included[0] == item then included[1..] else [included[0]] + Remove(included[1..], item)
  }

  lemma {:induction false} RemoveLast(fold: string -> string, included: seq<Item>)
    requires DistinctItems(fold, included) && included != []
    ensures Remove(included, included[|included| - 1]) == included[..|included| - 1]
  {
    var n := |included| - 1;
    if n > 0 {
      assert !SameItemKey(fold, included[0], included[n]);
      RemoveLast(fold, included[1..]);
      assert included[1..][n - 1] == included[n];
      assert [included[0]] + included[1..][..n - 1] == included[..n];
    }
  }

  /** What the loop leaves: a beginning of the sorted candidates, and a record of each of the others. */
  ghost predicate Accounted(fold: string -> string, ordered: seq<Item>, initial: seq<Omission>, n: nat,
      p: ContextPackage)
    requires n <= |ordered|
  {
    && p.items == ordered[..n]
    && multiset(p.omissions) == multiset(initial) + multiset(Records(ordered[n..]))
    && Sorted(p.omissions, OmissionOrder(fold))
    && p.omitted == AnythingOmitted(p.items, p.omissions)
    && p.actual == Size(Render(p.caseId, p.items, p.omissions, p.limit, p.omitted)) <= p.limit
  }

  lemma SortedPrefixDroppable(fold: string -> string, ordered: seq<Item>, n: nat)
    requires n <= |ordered| && Sorted(ordered, ItemOrder(fold))
    ensures n == 0 || ordered[n - 1].priority == 0 ==> LastDroppable(ordered[..n]).None?
  {
    hide StringLeq, KindText;
    if n > 0 && ordered[n - 1].priority == 0 {
      forall i | 0 <= i < n ensures ordered[i].priority == 0 {
        if i < n - 1 {
          assert ItemOrder(fold)(ordered[i], ordered[n - 1]);
        }
      }
    }
  }

  lemma SortedDistinct(fold: string -> string, candidates: seq<Item>)
    requires DistinctItems(fold, candidates)
    ensures DistinctItems(fold, Sort(candidates, ItemOrder(fold)))
    ensures Sorted(Sort(candidates, ItemOrder(fold)), ItemOrder(fold))
  {
    ItemsTotal(fold);
    SortSorted(candidates, ItemOrder(fold));
    ApartReordered(candidates, Sort(candidates, ItemOrder(fold)), (a, b) => SameItemKey(fold, a, b));
  }

  /** `ContextSelector._package`. */
  method Package(fold: string -> string, required: Required, caseId: string, candidates: seq<Item>,
      initial: seq<Omission>, limit: nat) returns (r: Outcome)
    requires DistinctItems(fold, candidates)
    ensures var ordered := Sort(candidates, ItemOrder(fold));
            var kept := Kept(caseId, limit, ordered, initial, |ordered|);
            && (r.Overflow? <==> kept.None?)
            && (!r.Overflow? ==> r.package.caseId == caseId && r.package.limit == limit)
            && (!r.Overflow? ==> Accounted(fold, ordered, initial, kept.value, r.package))
            && (!r.Overflow? ==> (r.Packaged? <==> Accepts(fold, required, r.package)))
  {
    NothingRecorded();
    hide Size, ItemsSize, OmissionsSize, HeaderSize, Render, ItemOrder, OmissionOrder, Sort, DistinctItems,
        SameItemKey, AnythingOmitted, Accepts;
    var ordered := Sort(candidates, ItemOrder(fold));
    SortedDistinct(fold, candidates);
    var included, omissions := ordered, initial;
    ghost var n: nat := |ordered|;
    assert ordered[..n] == ordered && ordered[n..] == [];
    var omitted, used;
    while true
      invariant n <= |ordered| && included == ordered[..n]
      invariant multiset(omissions) == multiset(initial) + multiset(Records(ordered[n..]))
      invariant OmissionsSize(omissions) == OmissionsSize(initial) + OmissionsSize(Records(ordered[n..]))
      invariant Kept(caseId, limit, ordered, initial, |ordered|) == Kept(caseId, limit, ordered, initial, n)
      decreases n
    {
      SortOmissionSize(omissions, OmissionOrder(fold));
      OmissionsTotal(fold);
      SortSorted(omissions, OmissionOrder(fold));
      omissions := Sort(omissions, OmissionOrder(fold));
      omitted := AnythingOmitted(included, omissions);
      used := Size(Render(caseId, included, omissions, limit, omitted));
      RenderSize(caseId, included, omissions, limit, omitted);
      if used <= limit {
        break;
      }
      SortedPrefixDroppable(fold, ordered, n);
      var removable := LastDroppable(included);
      if removable.None? {
        return Overflow;
      }
      DistinctPrefix(fold, ordered, n);
      RemoveLast(fold, included);
      OneMoreRecord(ordered, n, omissions);
      included := Remove(included, removable.value);
      omissions := omissions + [Dropped(removable.value)];
      n := n - 1;
    }
    var package := ContextPackage(caseId, included, omissions, limit, used, omitted);
    r := if Accepts(fold, required, package) then Packaged(package) else Rejected(package);
  }

  lemma NothingRecorded()
    ensures Records([]) == [] && OmissionsSize([]) == 0
  {
  }

  lemma DistinctPrefix(fold: string -> string, items: seq<Item>, n: nat)
    requires n <= |items| && DistinctItems(fold, items)
    ensures DistinctItems(fold, items[..n])
  {
  }

  lemma OneMoreRecord(ordered: seq<Item>, n: nat, omissions: seq<Omission>)
    requires 0 < n <= |ordered|
    ensures Records(ordered[n - 1..]) == [Dropped(ordered[n - 1])] + Records(ordered[n..])
    ensures OmissionsSize(omissions + [Dropped(ordered[n - 1])])
         == OmissionsSize(omissions) + Size(OmissionText(Dropped(ordered[n - 1])))
    ensures OmissionsSize(Records(ordered[n - 1..]))
         == Size(OmissionText(Dropped(ordered[n - 1]))) + OmissionsSize(Records(ordered[n..]))
    ensures ordered[..n][..n - 1] == ordered[..n - 1]
  {
    hide Size, OmissionText;
    var rest, record := ordered[n - 1..], Dropped(ordered[n - 1]);
    assert rest[1..] == ordered[n..];
    assert ([record] + Records(ordered[n..]))[1..] == Records(ordered[n..]);
    OmissionsSizeAppend(omissions, [record]);
    assert [record][1..] == [];
  }

  // ---------------------------------------------------------------- what a package tells

  lemma SameMembers(a: seq<Omission>, b: seq<Omission>)
    requires multiset(a) == multiset(b)
    ensures forall o :: o in a <==> o in b
  {
    forall o ensures o in a <==> o in b {
      assert o in multiset(a) <==> o in multiset(b);
    }
  }

  /** Added to the initial omissions are the dropped items and nothing else. */
  lemma RecordsTell(omissions: seq<Omission>, initial: seq<Omission>, ordered: seq<Item>, n: nat)
    requires n <= |ordered| && multiset(omissions) == multiset(initial + Records(ordered[n..]))
    ensures forall i :: n <= i < |ordered| ==> Omission(ordered[i].path, ordered[i].kind, Budget) in omissions
    ensures forall o :: o in initial ==> o in omissions
    ensures forall o :: o in omissions ==>
              o in initial || exists i :: n <= i < |ordered| && o == Omission(ordered[i].path, ordered[i].kind, Budget)
  {
    hide Records;
    var records := Records(ordered[n..]);
    SameMembers(omissions, initial + records);
    forall i | n <= i < |ordered| ensures Omission(ordered[i].path, ordered[i].kind, Budget) in omissions {
      assert records[i - n] == Dropped(ordered[n..][i - n]) && records[i - n] in initial + records;
    }
    forall o | o in omissions && o !in initial
      ensures exists i :: n <= i < |ordered| && o == Omission(ordered[i].path, ordered[i].kind, Budget)
    {
      var k :| 0 <= k < |records| && records[k] == o;
      assert o == Dropped(ordered[n + k]);
    }
  }

  /** What a package says of its candidates: what is kept and what is dropped, in the order of priority, path and line,
      a record for each that is dropped and no other budget record, and whether anything is missing. */
  lemma PackageTells(fold: string -> string, candidates: seq<Item>, initial: seq<Omission>, n: nat, p: ContextPackage)
    requires n <= |candidates| && Accounted(fold, Sort(candidates, ItemOrder(fold)), initial, n, p)
    requires forall i :: 0 <= i < |initial| ==> initial[i].reason != Budget
    ensures var ordered := Sort(candidates, ItemOrder(fold));
            && p.items == ordered[..n] && multiset(ordered) == multiset(candidates)
            && (forall i, j :: 0 <= i < j < |ordered| ==> ItemsInTurn(fold, ordered[i], ordered[j]))
            && (forall i :: n <= i < |ordered| ==> Omission(ordered[i].path, ordered[i].kind, Budget) in p.omissions)
            && (forall o :: o in p.omissions ==>
                 o in initial || exists i :: n <= i < |ordered| && o == Omission(ordered[i].path, ordered[i].kind, Budget))
            && (forall o :: o in initial ==> o in p.omissions)
            && (p.omitted <==> n < |ordered| || exists i :: 0 <= i < n && ordered[i].truncated)
  {
    hide Sort, ItemsInTurn, Size, Render, ItemLeq, OmissionLeq;
    var ordered := Sort(candidates, ItemOrder(fold));
    SortedInTurn(fold, candidates);
    RecordsTell(p.omissions, initial, ordered, n);
    OmittedExactly(ordered, initial, n, p);
  }

  lemma OmittedExactly(ordered: seq<Item>, initial: seq<Omission>, n: nat, p: ContextPackage)
    requires n <= |ordered| && p.items == ordered[..n] && p.omitted == AnythingOmitted(p.items, p.omissions)
    requires forall o :: o in p.omissions ==> o in initial || n < |ordered|
    requires forall i :: n <= i < |ordered| ==> Omission(ordered[i].path, ordered[i].kind, Budget) in p.omissions
    requires forall i :: 0 <= i < |initial| ==> initial[i].reason != Budget
    ensures p.omitted <==> n < |ordered| || exists i :: 0 <= i < n && ordered[i].truncated
  {
    if n < |ordered| {
      var record := Omission(ordered[n].path, ordered[n].kind, Budget);
      var i :| 0 <= i < |p.omissions| && p.omissions[i] == record;
    }
    if i :| 0 <= i < |p.omissions| && p.omissions[i].reason == Budget {
      assert p.omissions[i] in p.omissions;
    }
  }

  /** By priority, then folded path, then line. */
  predicate ItemsInTurn(fold: string -> string, a: Item, b: Item) {
    && a.priority <= b.priority
    && (a.priority == b.priority ==> StringLeq(fold(a.path), fold(b.path)))
    && (a.priority == b.priority && fold(a.path) == fold(b.path) ==> a.line <= b.line)
    && (a.priority == b.priority && fold(a.path) == fold(b.path) && a.line == b.line ==> StringLeq(KindText(a.kind), KindText(b.kind)))
  }

  lemma SortedInTurn(fold: string -> string, candidates: seq<Item>)
    ensures var ordered := Sort(candidates, ItemOrder(fold));
            forall i, j :: 0 <= i < j < |ordered| ==> ItemsInTurn(fold, ordered[i], ordered[j])
  {
    hide StringLeq, KindText, Sort;
    ItemsTotal(fold);
    SortSorted(candidates, ItemOrder(fold));
    var ordered := Sort(candidates, ItemOrder(fold));
    forall i, j | 0 <= i < j < |ordered| ensures ItemsInTurn(fold, ordered[i], ordered[j]) {
      assert ItemOrder(fold)(ordered[i], ordered[j]);
      StringReflexive(fold(ordered[i].path));
    }
  }

  // ---------------------------------------------------------------- when the package is accepted

  predicate SamePlace(fold: string -> string, a: Item, b: Item) {
    fold(a.path) == fold(b.path) && a.kind == b.kind
  }

  /** No two items share their path and kind. */
  predicate DistinctPlaces(fold: string -> string, items: seq<Item>) {
    Apart(items, (a, b) => SamePlace(fold, a, b))
  }

  /** What collecting guarantees: candidates apart, no budget records yet, and the mandatory candidates. */
  predicate WellCollected(fold: string -> string, required: Required, candidates: seq<Item>, initial: seq<Omission>) {
    && DistinctItems(fold, candidates)
    && (forall i :: 0 <= i < |initial| ==> initial[i].reason != Budget)
    && (exists i :: 0 <= i < |candidates| && candidates[i].priority == 0 && candidates[i].kind == Issue)
    && ShowsMandatory(candidates, Classification, required.analysis)
    && ShowsMandatory(candidates, ProtectedPathPolicy, required.policy)
  }

  predicate ShowsMandatory(items: seq<Item>, kind: Kind, content: string) {
    exists i :: 0 <= i < |items| && items[i].priority == 0 && items[i].kind == kind && items[i].content == content
  }

  lemma RecordsApart(fold: string -> string, initial: seq<Omission>, rest: seq<Item>)
    requires forall i :: 0 <= i < |initial| ==> initial[i].reason != Budget
    ensures DistinctOmissions(fold, initial + Records(rest)) <==> DistinctOmissions(fold, initial) && DistinctPlaces(fold, rest)
  {
    hide SamePlace, SameOmissionKey, Records;
    var all, n := initial + Records(rest), |initial|;
    KeyIsPlace(fold);
    assert forall i :: 0 <= i < |rest| ==> all[n + i] == Dropped(rest[i]);
    if DistinctOmissions(fold, all) {
      forall i, j | 0 <= i < j < |rest| ensures !SamePlace(fold, rest[i], rest[j]) {
        assert !SameOmissionKey(fold, all[n + i], all[n + j]);
      }
      forall i, j | 0 <= i < j < n ensures !SameOmissionKey(fold, initial[i], initial[j]) {
        assert !SameOmissionKey(fold, all[i], all[j]);
      }
    }
    if DistinctOmissions(fold, initial) && DistinctPlaces(fold, rest) {
      forall i, j | 0 <= i < j < |all| ensures !SameOmissionKey(fold, all[i], all[j]) {
        if i >= n {
          assert !SamePlace(fold, rest[i - n], rest[j - n]);
          assert all[i] == Dropped(rest[i - n]) && all[j] == Dropped(rest[j - n]);
        } else if j >= n {
          assert all[j] == Dropped(rest[j - n]);
        } else {
          assert !SameOmissionKey(fold, initial[i], initial[j]);
        }
      }
    }
  }

  /** Records clash where the items were in one place, and never with other omissions. */
  lemma KeyIsPlace(fold: string -> string)
    ensures forall a: Item, b: Item :: SameOmissionKey(fold, Dropped(a), Dropped(b)) <==> SamePlace(fold, a, b)
    ensures forall a: Omission, b: Omission :: a.reason != b.reason ==> !SameOmissionKey(fold, a, b)
  {
  }

  /** Mandatory candidates stay in any beginning that holds all of them. */
  lemma MandatoryStays(candidates: seq<Item>, ordered: seq<Item>, n: nat, i: nat) returns (j: nat)
    requires multiset(candidates) == multiset(ordered)
    requires i < |candidates| && candidates[i].priority == 0 && Mandatory(ordered) <= n <= |ordered|
    ensures j < n && ordered[j] == candidates[i]
  {
    assert candidates[i] in multiset(ordered);
    j :| 0 <= j < |ordered| && ordered[j] == candidates[i];
  }

  /** A package that fits is accepted exactly when the omissions met before it are distinct, and no two dropped
      candidates share their path and kind. */
  lemma AcceptedExactly(fold: string -> string, required: Required, candidates: seq<Item>, initial: seq<Omission>,
      n: nat, p: ContextPackage)
    requires WellCollected(fold, required, candidates, initial)
    requires n <= |candidates| && Mandatory(Sort(candidates, ItemOrder(fold))) <= n
    requires Accounted(fold, Sort(candidates, ItemOrder(fold)), initial, n, p)
    ensures Accepts(fold, required, p)
       <==> DistinctOmissions(fold, initial) && DistinctPlaces(fold, Sort(candidates, ItemOrder(fold))[n..])
  {
    hide Size, Render, Sort, AnythingOmitted, ItemLeq, OmissionLeq, DistinctPlaces, SameItemKey, SameOmissionKey,
        Mandatory, Records, DistinctOmissions, Apart;
    var ordered := Sort(candidates, ItemOrder(fold));
    SortedDistinct(fold, candidates);
    DistinctPrefix(fold, ordered, n);
    RequiredStay(fold, required, candidates, initial, ordered, n);
    RecordsApart(fold, initial, ordered[n..]);
    SameDistinctOmissions(fold, initial + Records(ordered[n..]), p.omissions);
    SortedPrefix(fold, ordered, n);
  }

  /** Without an issue, the analysis or the policy among its candidates a package is refused, however small it is. */
  lemma AcceptedHasRequired(fold: string -> string, required: Required, candidates: seq<Item>, initial: seq<Omission>,
      n: nat, p: ContextPackage)
    requires n <= |candidates| && Accounted(fold, Sort(candidates, ItemOrder(fold)), initial, n, p)
    requires Accepts(fold, required, p)
    ensures exists item :: item in candidates && item.kind == Issue
    ensures exists item :: item in candidates && item.kind == Classification && item.content == required.analysis
    ensures exists item :: item in candidates && item.kind == ProtectedPathPolicy && item.content == required.policy
  {
    hide Accepts, Sort, AnythingOmitted, Records, Sorted, OmissionOrder, Render;
    AmongCandidates(candidates, Sort(candidates, ItemOrder(fold)), n);
    RequiredAmong(fold, required, candidates, p);
  }

  lemma RequiredAmong(fold: string -> string, required: Required, candidates: seq<Item>, p: ContextPackage)
    requires Accepts(fold, required, p) && forall i :: 0 <= i < |p.items| ==> p.items[i] in candidates
    ensures exists item :: item in candidates && item.kind == Issue
    ensures exists item :: item in candidates && item.kind == Classification && item.content == required.analysis
    ensures exists item :: item in candidates && item.kind == ProtectedPathPolicy && item.content == required.policy
  {
    hide Render, Sorted, AnythingOmitted, DistinctItems, DistinctOmissions;
    var i :| 0 <= i < |p.items| && p.items[i].kind == Issue;
    var j :| 0 <= j < |p.items| && p.items[j].kind == Classification && p.items[j].content == required.analysis;
    var k :| 0 <= k < |p.items| && p.items[k].kind == ProtectedPathPolicy && p.items[k].content == required.policy;
    assert p.items[i] in candidates && p.items[j] in candidates && p.items[k] in candidates;
  }

  lemma AmongCandidates(candidates: seq<Item>, ordered: seq<Item>, n: nat)
    requires n <= |ordered| && multiset(ordered) == multiset(candidates)
    ensures forall i :: 0 <= i < n ==> ordered[i] in candidates
  {
    forall i | 0 <= i < n ensures ordered[i] in candidates {
      assert ordered[i] in multiset(ordered);
    }
  }

  lemma SortedPrefix(fold: string -> string, ordered: seq<Item>, n: nat)
    requires n <= |ordered| && Sorted(ordered, ItemOrder(fold))
    ensures Sorted(ordered[..n], ItemOrder(fold))
  {
  }

  lemma SameDistinctOmissions(fold: string -> string, a: seq<Omission>, b: seq<Omission>)
    requires multiset(a) == multiset(b)
    ensures DistinctOmissions(fold, a) <==> DistinctOmissions(fold, b)
  {
    hide SameOmissionKey;
    var same := (x, y) => SameOmissionKey(fold, x, y);
    OmissionKeyProper(fold);
    if Apart(a, same) {
      ApartReordered(a, b, same);
    }
    if Apart(b, same) {
      ApartReordered(b, a, same);
    }
  }

  lemma OmissionKeyProper(fold: string -> string)
    ensures forall a, b :: SameOmissionKey(fold, a, b) ==> SameOmissionKey(fold, a, a) && SameOmissionKey(fold, b, a)
  {
  }

  lemma RequiredStay(fold: string -> string, required: Required, candidates: seq<Item>, initial: seq<Omission>,
      ordered: seq<Item>, n: nat)
    requires WellCollected(fold, required, candidates, initial)
    requires multiset(candidates) == multiset(ordered) && Mandatory(ordered) <= n <= |ordered|
    ensures exists i :: 0 <= i < n && ordered[i].kind == Issue
    ensures Shows(ordered[..n], Classification, required.analysis)
    ensures Shows(ordered[..n], ProtectedPathPolicy, required.policy)
  {
    hide Mandatory, DistinctItems, DistinctOmissions, Shows, ShowsMandatory;
    var i :| 0 <= i < |candidates| && candidates[i].priority == 0 && candidates[i].kind == Issue;
    var j := MandatoryStays(candidates, ordered, n, i);
    ShowsStay(candidates, ordered, n, Classification, required.analysis);
    ShowsStay(candidates, ordered, n, ProtectedPathPolicy, required.policy);
  }

  lemma ShowsStay(candidates: seq<Item>, ordered: seq<Item>, n: nat, kind: Kind, content: string)
    requires multiset(candidates) == multiset(ordered) && Mandatory(ordered) <= n <= |ordered|
    requires ShowsMandatory(candidates, kind, content)
    ensures Shows(ordered[..n], kind, content)
  {
    hide Mandatory;
    var i :| 0 <= i < |candidates| && candidates[i].priority == 0 && candidates[i].kind == kind
      && candidates[i].content == content;
    var j := MandatoryStays(candidates, ordered, n, i);
    assert ordered[..n][j] == candidates[i];
  }

  /** With distinct omissions and no two droppable candidates sharing path and kind, every limit gives an accepted
      package or an overflow. */
  lemma DistinctPlacesSuffice(fold: string -> string, required: Required, candidates: seq<Item>, initial: seq<Omission>,
      n: nat, p: ContextPackage)
    requires WellCollected(fold, required, candidates, initial) && DistinctOmissions(fold, initial)
    requires forall i, j :: 0 <= i < j < |candidates| && candidates[i].priority != 0 && candidates[j].priority != 0
               ==> !SamePlace(fold, candidates[i], candidates[j])
    requires n <= |candidates| && Mandatory(Sort(candidates, ItemOrder(fold))) <= n
    requires Accounted(fold, Sort(candidates, ItemOrder(fold)), initial, n, p)
    ensures Accepts(fold, required, p)
  {
    hide Accepts, Accounted, WellCollected, Sort, Mandatory;
    var ordered := Sort(candidates, ItemOrder(fold));
    AcceptedExactly(fold, required, candidates, initial, n, p);
    var clash := (a: Item, b: Item) => SamePlace(fold, a, b) && a.priority != 0 && b.priority != 0;
    assert Apart(candidates, clash);
    ApartReordered(candidates, ordered, clash);
    forall i, j | 0 <= i < j < |ordered[n..]| ensures !SamePlace(fold, ordered[n..][i], ordered[n..][j]) {
      assert !clash(ordered[n + i], ordered[n + j]);
    }
  }

  /** Two large definitions of one file. */
  function Clashing(): (r: seq<Item>)
    ensures |r| == 5
  {
    var large := seq(2000, _ => 'x');
    [ Item("m", Classification, "c", 0, 0, false, 1),
      Item("m", Issue, "i", 0, 0, false, 1),
      Item("m", ProtectedPathPolicy, "p", 0, 0, false, 1),
      Item("a.py", Definition, large, 4, 1, false, 2000),
      Item("a.py", Definition, large, 4, 2, false, 2000)]
  }

  lemma KindTextSize(kind: Kind)
    ensures Size(KindText(kind)) <= 22
  {
    hide Size;
    match kind {
      case Issue => AsciiSize("issue");
      case Classification => AsciiSize("classification");
      case ProtectedPathPolicy => AsciiSize("protected_path_policy");
      case FailureTrace => AsciiSize("failure_trace");
      case VisibleTest => AsciiSize("visible_test");
      case Source => AsciiSize("source");
      case Definition => AsciiSize("definition");
      case Import => AsciiSize("import");
      case TypeDefinition => AsciiSize("type_definition");
      case RepositoryInstruction => AsciiSize("repository_instruction");
    }
  }

  lemma SmallItemSize(item: Item)
    requires item.priority < 10 && item.line < 10 && item.original < 10
    requires Size(item.path) == 1 && Size(item.content) == 1
    ensures Size(ItemText(item)) <= 45
  {
    hide Size, ItemText, KindText;
    ItemTextSize(item);
    KindTextSize(item.kind);
  }

  lemma LargeItemSize()
    ensures Size(ItemText(Clashing()[3])) > 2000
  {
    hide Size, ItemText, Decimal;
    ItemTextSize(Clashing()[3]);
    AsciiSize(Clashing()[3].content);
  }

  lemma ClashingRecordSize()
    ensures Size(OmissionText(Omission("a.py", Definition, Budget))) <= 40
  {
    hide Size, OmissionText;
    OmissionTextSize(Omission("a.py", Definition, Budget));
    AsciiSize("a.py");
    AsciiSize(KindText(Definition));
    BudgetSize();
  }

  lemma ClashingItemsSize()
    ensures ItemsSize(Clashing()[..3]) <= 135 && ItemsSize(Clashing()[..4]) > 2000
  {
    hide Size, ItemText;
    var s := Clashing();
    AsciiSize("m");
    AsciiSize("c");
    AsciiSize("i");
    AsciiSize("p");
    SmallItemSize(s[0]);
    SmallItemSize(s[1]);
    SmallItemSize(s[2]);
    LargeItemSize();
    assert s[..3][..2] == s[..2] && s[..2][..1] == s[..1] && s[..1][..0] == [] && s[..4][..3] == s[..3];
    assert ItemsSize(s[..1]) <= 45 && ItemsSize(s[..2]) <= 90;
  }

  lemma ClashingRecordsSize()
    ensures OmissionsSize(Records(Clashing()[3..])) <= 80
  {
    hide Size, OmissionText;
    ClashingRecordSize();
    var record := Omission("a.py", Definition, Budget);
    assert Clashing()[3..][1..] == [Clashing()[4]];
    OmissionsSizeAppend([record], [record]);
    assert [record][1..] == [];
    assert Records(Clashing()[3..]) == [record] + [record];
  }

  lemma ClashingTotals()
    ensures Total("c", 1000, Clashing(), [], 3) <= 1000 < Total("c", 1000, Clashing(), [], 4)
  {
    hide Size, ItemsSize, OmissionsSize, Records, Clashing;
    ClashingItemsSize();
    ClashingRecordsSize();
    NothingRecorded();
    AsciiSize("c");
    DecimalGrowth(999, 1000);
    assert |Decimal(9)| == 1 && |Decimal(99)| == 2 && |Decimal(999)| == 3;
  }

  lemma KindsInOrder()
    ensures StringLeq(KindText(Classification), KindText(Issue))
    ensures StringLeq(KindText(Issue), KindText(ProtectedPathPolicy))
    ensures StringLeq(KindText(Classification), KindText(ProtectedPathPolicy))
  {
  }

  lemma ClashingSorted(fold: string -> string)
    ensures Sort(Clashing(), ItemOrder(fold)) == Clashing()
  {
    hide StringLeq, KindText, Sort;
    KindsInOrder();
    assert Sorted(Clashing(), ItemOrder(fold));
    SortOfSorted(Clashing(), ItemOrder(fold));
  }

  lemma ClashingMandatory()
    ensures Mandatory(Clashing()) == 3
  {
    var m := Mandatory(Clashing());
    assert Clashing()[2].priority == 0 && Clashing()[3].priority != 0 && Clashing()[4].priority != 0;
  }

  lemma ClashingCollected(fold: string -> string)
    ensures WellCollected(fold, Required("c", "p"), Clashing(), [])
    ensures !DistinctPlaces(fold, Clashing()[3..])
  {
    var s := Clashing();
    assert s[0].kind == Classification && s[1].kind == Issue && s[2].kind == ProtectedPathPolicy;
    assert SamePlace(fold, s[3..][0], s[3..][1]);
  }

  /** Two definitions of one file that must both go: the package that is left has two equal records, and is refused. */
  lemma SharedPlaceRefused(fold: string -> string, p: ContextPackage)
    requires Accounted(fold, Clashing(), [], 3, p)
    ensures WellCollected(fold, Required("c", "p"), Clashing(), [])
    ensures Kept("c", 1000, Sort(Clashing(), ItemOrder(fold)), [], 5) == Some(3)
    ensures !Accepts(fold, Required("c", "p"), p)
  {
    hide Total, Kept, Mandatory, Clashing, Accounted, Accepts, Sort, ItemLeq, DistinctPlaces, WellCollected;
    var s := Clashing();
    assert |s| == 5;
    ClashingTotals();
    ClashingSorted(fold);
    ClashingMandatory();
    ClashingCollected(fold);
    KeptIsLongest("c", 1000, s, [], 5);
    FewerSmaller("c", 1000, s, [], 4, 5);
    AcceptedExactly(fold, Required("c", "p"), s, [], 3, p);
  }

  // ---------------------------------------------------------------- two frames of one missing file

  /** The omissions of a traceback with two lines of a file that is not in the repository. */
  function TwoFrames(): seq<Omission> {
    [Omission("a.py", Source, UnsafePath), Omission("a.py", Source, UnsafePath)]
  }

  lemma TwoFramesSize()
    ensures OmissionsSize(TwoFrames()) <= 80
  {
    hide Size, OmissionText;
    var record := Omission("a.py", Source, UnsafePath);
    OmissionTextSize(record);
    AsciiSize("a.py");
    AsciiSize(KindText(Source));
    AsciiSize(ReasonText(UnsafePath));
    OmissionsSizeAppend([record], [record]);
    assert [record][1..] == [] && TwoFrames() == [record] + [record];
  }

  lemma TwoFramesTotal()
    ensures Total("c", 1000, Clashing()[..3], TwoFrames(), 3) <= 1000
  {
    hide Size, ItemsSize, OmissionsSize, Records, Clashing, TwoFrames;
    var s := Clashing()[..3];
    ClashingItemsSize();
    TwoFramesSize();
    NothingRecorded();
    AsciiSize("c");
    DecimalGrowth(999, 1000);
    assert s[..3] == s && s[3..] == [];
    assert |Decimal(9)| == 1 && |Decimal(99)| == 2 && |Decimal(999)| == 3;
  }

  lemma TwoFramesCollected(fold: string -> string)
    ensures WellCollected(fold, Required("c", "p"), Clashing()[..3], TwoFrames())
    ensures !DistinctOmissions(fold, TwoFrames())
  {
    var s := Clashing()[..3];
    assert s[0].kind == Classification && s[1].kind == Issue && s[2].kind == ProtectedPathPolicy;
    assert SameOmissionKey(fold, TwoFrames()[0], TwoFrames()[1]);
  }

  lemma MandatorySorted(fold: string -> string)
    ensures Sort(Clashing()[..3], ItemOrder(fold)) == Clashing()[..3]
  {
    hide StringLeq, KindText, Sort;
    KindsInOrder();
    assert Sorted(Clashing()[..3], ItemOrder(fold));
    SortOfSorted(Clashing()[..3], ItemOrder(fold));
  }

  /** Nothing has to be dropped, and the package is refused for its two equal omissions. */
  lemma TwoFramesRefused(fold: string -> string, p: ContextPackage)
    requires Accounted(fold, Clashing()[..3], TwoFrames(), 3, p)
    ensures WellCollected(fold, Required("c", "p"), Clashing()[..3], TwoFrames())
    ensures Kept("c", 1000, Sort(Clashing()[..3], ItemOrder(fold)), TwoFrames(), 3) == Some(3)
    ensures !Accepts(fold, Required("c", "p"), p)
  {
    hide Total, Mandatory, Clashing, TwoFrames, Accounted, Accepts, Sort, ItemLeq, DistinctPlaces, WellCollected;
    var s := Clashing()[..3];
    TwoFramesTotal();
    TwoFramesCollected(fold);
    MandatorySorted(fold);
    AcceptedExactly(fold, Required("c", "p"), s, TwoFrames(), 3, p);
  }
}
