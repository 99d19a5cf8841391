/** `Json::Value`: the tree the parser builds and the writers print, its member map, its
    ordering, and the abstract view (`Json`) under which trees are compared. */
module JsonValue {
  import StringOrder

  datatype Option<+T> = None | Some(value: T)

  // A key of `ObjectValues`: an array slot (null `cstr_`) or a member name.
  datatype CZString = Index(index: nat) | Name(cstr: string)

  // Arrays and objects share one representation, a `std::map` here written as the
  // sequence of its entries in iteration order.
  type ObjectValues = seq<Entry>
  datatype Entry = Entry(key: CZString, value: Value)

  datatype Value =
    | Null
    | Int(i: int)
    | UInt(u: nat)
    | Real(r: real)
    | Str(s: string)
    | Bool(b: bool)
    | Arr(entries: ObjectValues)
    | Obj(entries: ObjectValues)

  const MIN_INT: int := -0x8000_0000
  const MAX_INT: int := 0x7FFF_FFFF
  const MAX_UINT: int := 0xFFFF_FFFF

  // Strings and member names live in NUL-terminated buffers: copying one keeps the
  // part before its first NUL.
  function CString(s: string): (t: string)
    ensures NulFree(t) && t <= s && (|t| < |s| ==> s[|t|] == '\0')
    ensures NulFree(s) ==> t == s
  {
    if s == "" || s[0] == '\0' then "" else [s[0]] + CString(s[1..])
  }

  predicate NulFree(s: string) {
    forall i :: 0 <= i < |s| ==> s[i] != '\0'
  }

  predicate KeyLess(a: CZString, b: CZString) {
    match (a, b)
    case (Name(s), Name(t)) => StringOrder.Less(s, t)
    case (Index(i), Index(j)) => i < j
    case _ => false
  }

  predicate Sorted(m: ObjectValues) {
    forall i, j :: 0 <= i < j < |m| ==> KeyLess(m[i].key, m[j].key)
  }

  // The invariant of trees built through the public interface.
  predicate Valid(v: Value)
    decreases v, 1
  {
    match v
    case Int(i) => MIN_INT <= i <= MAX_INT
    case UInt(u) => u <= MAX_UINT
    case Str(s) => NulFree(s)
    case Arr(m) => Sorted(m) && (forall i :: 0 <= i < |m| ==> m[i].key.Index?) && ValidAll(m)
    case Obj(m) => Sorted(m) && (forall i :: 0 <= i < |m| ==> m[i].key.Name? && NulFree(m[i].key.cstr)) && ValidAll(m)
    case _ => true
  }

  predicate ValidAll(m: ObjectValues)
    decreases m, 0
  {
    forall i :: 0 <= i < |m| ==> ValidEntry(m[i])
  }

  predicate ValidEntry(e: Entry)
    decreases e, 0
  {
    Valid(e.value)
  }

  // ---------------------------------------------------------------- the member map

  // Where `lower_bound` stops.
  function LowerBound(m: ObjectValues, k: CZString): (p: nat)
    ensures p <= |m|
    ensures forall i :: 0 <= i < p ==> KeyLess(m[i].key, k)
    ensures p < |m| ==> !KeyLess(m[p].key, k)
  {
    if m == [] || !KeyLess(m[0].key, k) then 0 else 1 + LowerBound(m[1..], k)
  }

  function Find(m: ObjectValues, k: CZString): Option<Value> {
    var p := LowerBound(m, k);
    if p < |m| && m[p].key == k then Some(m[p].value) else None
  }

  // Resolving a key for writing inserts null when the key is absent; assigning through
  // the reference then stores the value.
  function Store(m: ObjectValues, k: CZString, v: Value): ObjectValues {
    var p := LowerBound(m, k);
    if p < |m| && m[p].key == k then m[p := Entry(k, v)]
    else m[..p] + [Entry(k, v)] + m[p..]
  }

  function FindOrNull(m: ObjectValues, k: CZString): Value {
    match Find(m, k)
    case Some(v) => v
    case None => Null
  }

  predicate SameKind(a: CZString, b: CZString) {
    a.Name? == b.Name?
  }

  lemma {:induction false} KeyOrder(a: CZString, b: CZString, c: CZString)
    requires SameKind(a, b) && SameKind(b, c)
    ensures KeyLess(a, b) || a == b || KeyLess(b, a)
    ensures KeyLess(a, b) ==> a != b && !KeyLess(b, a)
    ensures KeyLess(a, b) && KeyLess(b, c) ==> KeyLess(a, c)
  {
    if a.Name? {
      StringOrder.Trichotomy(a.cstr, b.cstr);
      if KeyLess(a, b) && KeyLess(b, c) {
        StringOrder.Transitive(a.cstr, b.cstr, c.cstr);
      }
    }
  }

  predicate AllSameKind(m: ObjectValues, k: CZString) {
    forall i :: 0 <= i < |m| ==> SameKind(m[i].key, k)
  }

  // `lower_bound` finds a key exactly when some entry carries it.
  lemma FindIsLookup(m: ObjectValues, k: CZString, i: nat)
    requires Sorted(m) && AllSameKind(m, k)
    requires i < |m| && m[i].key == k
    ensures Find(m, k) == Some(m[i].value) && LowerBound(m, k) == i
  {
    KeyOrder(k, k, k);
  }

  // Storing keeps the entries sorted, sets the stored key and leaves the others alone.
  lemma StoreKeepsSorted(m: ObjectValues, k: CZString, v: Value)
    requires Sorted(m) && AllSameKind(m, k)
    ensures Sorted(Store(m, k, v)) && AllSameKind(Store(m, k, v), k)
  {
    var p := LowerBound(m, k);
    var r := Store(m, k, v);
    if p < |m| && m[p].key == k {
    } else {
      forall i, j | 0 <= i < j < |r| ensures KeyLess(r[i].key, r[j].key) {
        if i == p {
          KeyOrder(k, m[p].key, m[j - 1].key);
        }
      }
    }
  }

  lemma StoreThenFind(m: ObjectValues, k: CZString, v: Value, q: CZString)
    requires Sorted(m) && AllSameKind(m, k) && SameKind(k, q)
    ensures Find(Store(m, k, v), q) == if q == k then Some(v) else Find(m, q)
  {
    StoreKeepsSorted(m, k, v);
    var p := LowerBound(m, k);
    var r := Store(m, k, v);
    if q == k {
      FindIsLookup(r, k, p);
    } else if Find(m, q).Some? {
      var i := LowerBound(m, q);
      StoreMovesEntry(m, k, v, i);
      FindIsLookup(r, q, Moved(m, k, i));
    } else if Find(r, q).Some? {
      var i := LowerBound(r, q);
      assert r[i].key == q && i != p;
      var j := if i < p || Find(m, k).Some? then i else i - 1;
      StoreMovesEntry(m, k, v, j);
      FindIsLookup(m, q, j);
    }
  }

  // Where the entry at i stands after a store at k.
  function Moved(m: ObjectValues, k: CZString, i: nat): nat {
    if i < LowerBound(m, k) || Find(m, k).Some? then i else i + 1
  }

  lemma StoreMovesEntry(m: ObjectValues, k: CZString, v: Value, i: nat)
    requires i < |m| && m[i].key != k
    ensures var r := Store(m, k, v); Moved(m, k, i) < |r| && r[Moved(m, k, i)] == m[i]
  {
  }

  // A key above all the present ones is absent, and is stored at the end.
  lemma StoreAppends(m: ObjectValues, k: CZString, v: Value)
    requires forall i :: 0 <= i < |m| ==> KeyLess(m[i].key, k)
    ensures Find(m, k) == None && Store(m, k, v) == m + [Entry(k, v)]
  {
    assert LowerBound(m, k) == |m|;
  }

  // ---------------------------------------------------------------- sizes and views

  // The size of an array is its highest index plus one, however sparse it is.
  function Size(v: Value): nat {
    match v
    case Arr(m) => if m == [] then 0 else if m[|m| - 1].key.Index? then m[|m| - 1].key.index + 1 else 0
    case Obj(m) => |m|
    case _ => 0
  }

  // What a tree means to a reader of it: integers whatever their C++ type, arrays dense.
  datatype Json =
    | JNull
    | JInt(n: int)
    | JReal(r: real)
    | JStr(s: string)
    | JBool(b: bool)
    | JArr(elems: seq<Json>)
    | JObj(members: seq<Member>)

  datatype Member = Member(name: string, value: Json)

  function View(v: Value): Json
    decreases v
  {
    match v
    case Null => JNull
    case Int(i) => JInt(i)
    case UInt(u) => JInt(u)
    case Real(r) => JReal(r)
    case Str(s) => JStr(s)
    case Bool(b) => JBool(b)
    case Arr(m) => JArr(seq(Size(v), i requires 0 <= i < Size(v) => SlotView(m, i)))
    case Obj(m) => JObj(seq(|m|, i requires 0 <= i < |m| =>
        Member(if m[i].key.Name? then m[i].key.cstr else "", EntryView(m[i]))))
  }

  function EntryView(e: Entry): Json
    decreases e
  {
    View(e.value)
  }

  function SlotView(m: ObjectValues, i: nat): Json
    decreases m
  {
    var p := LowerBound(m, Index(i));
    if p < |m| && m[p].key == Index(i) then EntryView(m[p]) else JNull
  }

  // The two index operators on the view: absent slots and members read as null.
  lemma SlotViewIsFind(m: ObjectValues, i: nat)
    ensures SlotView(m, i) == View(FindOrNull(m, Index(i)))
  {
  }

  function Max(a: nat, b: nat): nat {
    if a < b then b else a
  }

  lemma SlotBeyondSize(m: ObjectValues, i: nat)
    requires Sorted(m) && AllSameKind(m, Index(i)) && i >= Size(Arr(m))
    ensures SlotView(m, i) == JNull
  {
    var p := LowerBound(m, Index(i));
    assert p + 1 < |m| ==> KeyLess(m[p].key, m[|m| - 1].key);
  }

  lemma StoreSize(m: ObjectValues, i: nat, v: Value)
    requires Sorted(m) && AllSameKind(m, Index(i))
    ensures Size(Arr(Store(m, Index(i), v))) == Max(Size(Arr(m)), i + 1)
  {
    hide View, SlotView;
    StoreKeepsSorted(m, Index(i), v);
    var p, r := LowerBound(m, Index(i)), Store(m, Index(i), v);
    assert r[|r| - 1].key == if p < |m| then m[|m| - 1].key else Index(i);
    if p < |m| {
      KeyOrder(m[p].key, Index(i), m[|m| - 1].key);
      assert p == |m| - 1 || KeyLess(m[p].key, m[|m| - 1].key);
    }
  }

  // A dense array with one element set, padded with nulls as far as needed.
  function Assigned(es: seq<Json>, i: nat, e: Json): seq<Json> {
    seq(Max(|es|, i + 1), j requires 0 <= j => if j == i then e else if j < |es| then es[j] else JNull)
  }

  // Assigning to a slot of an array, however far beyond its end, sets that element of the
  // dense view; the slots skipped on the way read as null, and nothing else changes.
  lemma StoreView(m: ObjectValues, i: nat, v: Value)
    requires Sorted(m) && AllSameKind(m, Index(i))
    ensures View(Arr(Store(m, Index(i), v))) == JArr(Assigned(View(Arr(m)).elems, i, View(v)))
  {
    hide Store, LowerBound, Find, Sorted, AllSameKind, SlotView;
    var r := Store(m, Index(i), v);
    StoreSize(m, i, v);
    var es, want := View(Arr(r)).elems, Assigned(View(Arr(m)).elems, i, View(v));
    assert |es| == |want|;
    forall j | 0 <= j < |es| ensures es[j] == want[j] {
      StoreThenSlot(m, i, v, j);
    }
  }

  lemma StoreThenSlot(m: ObjectValues, i: nat, v: Value, j: nat)
    requires Sorted(m) && AllSameKind(m, Index(i))
    ensures SlotView(Store(m, Index(i), v), j) ==
      if j == i then View(v) else if j < Size(Arr(m)) then SlotView(m, j) else JNull
  {
    hide Store, LowerBound, Find, Sorted, SlotView, View;
    SlotViewIsFind(Store(m, Index(i), v), j);
    SlotViewIsFind(m, j);
    StoreThenFind(m, Index(i), v, Index(j));
    if j >= Size(Arr(m)) {
      assert AllSameKind(m, Index(j));
      SlotBeyondSize(m, j);
    }
  }

  // The members of an object are listed in the order of their names.
  lemma MembersAscend(m: ObjectValues, i: nat, j: nat)
    requires Valid(Obj(m)) && i < j < |m|
    ensures var ms := View(Obj(m)).members; StringOrder.Precedes(ms[i].name, ms[j].name)
  {
    StringOrder.LessMeans(m[i].key.cstr, m[j].key.cstr);
  }

  // ---------------------------------------------------------------- operator<, operator==

  function TypeIndex(v: Value): nat {
    match v
    case Null => 0
    case Int(_) => 1
    case UInt(_) => 2
    case Real(_) => 3
    case Str(_) => 4
    case Bool(_) => 5
    case Arr(_) => 6
    case Obj(_) => 7
  }

  ghost function Weight(v: Value): nat
    decreases v, 1
  {
    if v.Arr? || v.Obj? then 1 + WeightAll(v.entries) else 1
  }

  ghost function WeightAll(m: ObjectValues): nat
    decreases m, 0
  {
    if m == [] then 0 else EntryWeight(m[0]) + WeightAll(m[1..])
  }

  ghost function EntryWeight(e: Entry): (w: nat)
    ensures w == 1 + Weight(e.value)
    decreases e, 0
  {
    1 + Weight(e.value)
  }

  predicate Less(a: Value, b: Value)
    decreases Weight(a) + Weight(b)
  {
    if TypeIndex(a) != TypeIndex(b) then TypeIndex(a) < TypeIndex(b)
    else match (a, b)
      case (Int(i), Int(j)) => i < j
      case (UInt(i), UInt(j)) => i < j
      case (Real(x), Real(y)) => x < y
      case (Bool(p), Bool(q)) => !p && q
      case (Str(s), Str(t)) => StringOrder.Less(s, t)
      case (Arr(m), Arr(n)) => if |m| != |n| then |m| < |n| else MapLess(m, n)
      case (Obj(m), Obj(n)) => if |m| != |n| then |m| < |n| else MapLess(m, n)
      case _ => false
  }

  // `std::map::operator<`: lexicographic over the entries.
  predicate MapLess(m: ObjectValues, n: ObjectValues)
    decreases WeightAll(m) + WeightAll(n)
  {
    if n == [] then false
    else if m == [] then true
    else EntryLess(m[0], n[0]) || (!EntryLess(n[0], m[0]) && MapLess(m[1..], n[1..]))
  }

  // `std::pair::operator<`.
  predicate EntryLess(e: Entry, f: Entry)
    decreases Weight(e.value) + Weight(f.value) + 1
  {
    KeyLess(e.key, f.key) || (!KeyLess(f.key, e.key) && Less(e.value, f.value))
  }

  predicate Equal(a: Value, b: Value)
    decreases a, 1
  {
    TypeIndex(a) == TypeIndex(b) &&
    match (a, b)
    case (Int(i), Int(j)) => i == j
    case (UInt(i), UInt(j)) => i == j
    case (Real(x), Real(y)) => x == y
    case (Bool(p), Bool(q)) => p == q
    case (Str(s), Str(t)) => s == t
    case (Arr(m), Arr(n)) => |m| == |n| && MapEqual(m, n)
    case (Obj(m), Obj(n)) => |m| == |n| && MapEqual(m, n)
    case _ => true
  }

  predicate MapEqual(m: ObjectValues, n: ObjectValues)
    decreases m, 0
  {
    |m| == |n| && (m != [] ==>
      EntryEqual(m[0], n[0]) && MapEqual(m[1..], n[1..]))
  }

  predicate EntryEqual(e: Entry, f: Entry)
    decreases e, 0
  {
    e.key == f.key && Equal(e.value, f.value)
  }
}
