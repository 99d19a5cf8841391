/** `Value::operator<` orders the valid trees strictly and totally, and `operator==` is
    the equality it leaves over. */
module JsonOrder {
  import opened JsonValue
  import StringOrder

  predicate ExactlyOne(p: bool, q: bool, r: bool) {
    (p || q || r) && !(p && q) && !(q && r) && !(p && r)
  }

  // Maps the members of one tree are compared as: all keys of one kind, all values valid.
  predicate Comparable(m: ObjectValues, n: ObjectValues) {
    && ValidAll(m) && ValidAll(n)
    && (forall i, j :: 0 <= i < |m| && 0 <= j < |n| ==> SameKind(m[i].key, n[j].key))
  }

  lemma {:induction false} LessTrichotomy(a: Value, b: Value)
    requires Valid(a) && Valid(b)
    ensures ExactlyOne(Less(a, b), a == b, Less(b, a))
    decreases Weight(a) + Weight(b)
  {
    if a.Str? && b.Str? {
      StringOrder.Trichotomy(a.s, b.s);
    } else if TypeIndex(a) == TypeIndex(b) && (a.Arr? || a.Obj?) && |a.entries| == |b.entries| {
      MapTrichotomy(a.entries, b.entries);
    }
  }

  lemma {:induction false} EntryTrichotomy(e: Entry, f: Entry)
    requires Valid(e.value) && Valid(f.value) && SameKind(e.key, f.key)
    ensures ExactlyOne(EntryLess(e, f), e == f, EntryLess(f, e))
    decreases Weight(e.value) + Weight(f.value) + 1
  {
    KeyOrder(e.key, f.key, e.key);
    LessTrichotomy(e.value, f.value);
  }

  lemma {:induction false} MapTrichotomy(m: ObjectValues, n: ObjectValues)
    requires Comparable(m, n)
    ensures ExactlyOne(MapLess(m, n), m == n, MapLess(n, m))
    decreases WeightAll(m) + WeightAll(n)
  {
    if m != [] && n != [] {
      assert ValidEntry(m[0]) && ValidEntry(n[0]);
      EntryTrichotomy(m[0], n[0]);
      MapTrichotomy(m[1..], n[1..]);
      assert m == [m[0]] + m[1..] && n == [n[0]] + n[1..];
    }
  }

  lemma {:induction false} LessTransitive(a: Value, b: Value, c: Value)
    requires Valid(a) && Valid(b) && Valid(c)
    requires Less(a, b) && Less(b, c)
    ensures Less(a, c)
    decreases Weight(a) + Weight(b) + Weight(c)
  {
    if TypeIndex(a) == TypeIndex(b) == TypeIndex(c) {
      if a.Str? {
        StringOrder.Transitive(a.s, b.s, c.s);
      } else if (a.Arr? || a.Obj?) && |a.entries| == |b.entries| == |c.entries| {
        MapTransitive(a.entries, b.entries, c.entries);
      }
    }
  }

  lemma {:induction false} EntryTransitive(e: Entry, f: Entry, g: Entry)
    requires Valid(e.value) && Valid(f.value) && Valid(g.value)
    requires SameKind(e.key, f.key) && SameKind(f.key, g.key)
    requires EntryLess(e, f) && EntryLess(f, g)
    ensures EntryLess(e, g)
    decreases Weight(e.value) + Weight(f.value) + Weight(g.value) + 1
  {
    KeyOrder(e.key, f.key, g.key);
    KeyOrder(f.key, g.key, e.key);
    KeyOrder(g.key, e.key, f.key);
    if Less(e.value, f.value) && Less(f.value, g.value) {
      LessTransitive(e.value, f.value, g.value);
    }
  }

  lemma {:induction false} MapTransitive(m: ObjectValues, n: ObjectValues, o: ObjectValues)
    requires Comparable(m, n) && Comparable(n, o) && Comparable(m, o)
    requires MapLess(m, n) && MapLess(n, o)
    ensures MapLess(m, o)
    decreases WeightAll(m) + WeightAll(n) + WeightAll(o)
  {
    if m != [] {
      assert ValidEntry(m[0]) && ValidEntry(n[0]) && ValidEntry(o[0]);
      EntryTrichotomy(m[0], n[0]);
      EntryTrichotomy(n[0], o[0]);
      EntryTrichotomy(m[0], o[0]);
      if EntryLess(m[0], n[0]) && EntryLess(n[0], o[0]) {
        EntryTransitive(m[0], n[0], o[0]);
      } else if m[0] == n[0] == o[0] {
        MapTransitive(m[1..], n[1..], o[1..]);
      }
    }
  }

  // `operator==` holds exactly between identical trees.
  lemma {:induction false} EqualIsIdentity(a: Value, b: Value)
    ensures Equal(a, b) <==> a == b
    decreases a, 1
  {
    if TypeIndex(a) == TypeIndex(b) && (a.Arr? || a.Obj?) {
      MapEqualIsIdentity(a.entries, b.entries);
    }
  }

  lemma {:induction false} EntryEqualIsIdentity(e: Entry, f: Entry)
    ensures EntryEqual(e, f) <==> e == f
    decreases e, 0
  {
    EqualIsIdentity(e.value, f.value);
  }

  lemma {:induction false} MapEqualIsIdentity(m: ObjectValues, n: ObjectValues)
    ensures MapEqual(m, n) <==> m == n
    decreases m, 0
  {
    if m != [] && n != [] {
      EntryEqualIsIdentity(m[0], n[0]);
      MapEqualIsIdentity(m[1..], n[1..]);
      assert m == [m[0]] + m[1..] && n == [n[0]] + n[1..];
    }
  }

  // The law of the two operators: a strict total order whose ties are the equal trees.
  lemma StrictTotalOrder(a: Value, b: Value, c: Value)
    requires Valid(a) && Valid(b) && Valid(c)
    ensures ExactlyOne(Less(a, b), Equal(a, b), Less(b, a))
    ensures Less(a, b) && Less(b, c) ==> Less(a, c)
  {
    LessTrichotomy(a, b);
    EqualIsIdentity(a, b);
    if Less(a, b) && Less(b, c) {
      LessTransitive(a, b, c);
    }
  }

  // ---------------------------------------------------------------- its direction

  function Magnitude(j: Json): real
    requires j.JInt? || j.JReal?
  {
    if j.JInt? then j.n as real else j.r
  }

  // Numbers of one type are ordered as numbers, strings by `strcmp`, and false comes first.
  lemma ScalarsAscend(a: Value, b: Value)
    ensures (a.Int? && b.Int?) || (a.UInt? && b.UInt?) || (a.Real? && b.Real?) ==>
      (Less(a, b) <==> Magnitude(View(a)) < Magnitude(View(b)))
    ensures a.Str? && b.Str? ==> (Less(a, b) <==> StringOrder.Precedes(a.s, b.s))
    ensures a.Bool? && b.Bool? ==> (Less(a, b) <==> a == Bool(false) && b == Bool(true))
  {
    if a.Str? && b.Str? {
      StringOrder.LessMeans(a.s, b.s);
    }
  }

  // Whatever they hold, values of different types are ordered by type.
  lemma TypesAscend(i: int, u: nat, r: real, s: string, b: bool, m: ObjectValues, n: ObjectValues)
    ensures Less(Null, Int(i)) && Less(Int(i), UInt(u)) && Less(UInt(u), Real(r)) && Less(Real(r), Str(s))
    ensures Less(Str(s), Bool(b)) && Less(Bool(b), Arr(m)) && Less(Arr(m), Obj(n))
  {
  }

  ghost predicate KeyPrecedes(k: CZString, l: CZString) {
    if k.Index? && l.Index? then k.index < l.index
    else k.Name? && l.Name? && StringOrder.Precedes(k.cstr, l.cstr)
  }

  // Where two maps first differ, m has the smaller key, or the smaller value of one key.
  ghost predicate FirstDifferenceLess(m: ObjectValues, n: ObjectValues, k: nat)
    requires |m| == |n|
  {
    && k < |m| && m[..k] == n[..k]
    && (KeyPrecedes(m[k].key, n[k].key) || (m[k].key == n[k].key && Less(m[k].value, n[k].value)))
  }

  lemma EntryLessMeans(e: Entry, f: Entry)
    requires SameKind(e.key, f.key)
    ensures EntryLess(e, f) <==> KeyPrecedes(e.key, f.key) || (e.key == f.key && Less(e.value, f.value))
  {
    KeyOrder(e.key, f.key, e.key);
    if e.key.Name? {
      StringOrder.LessMeans(e.key.cstr, f.key.cstr);
    }
  }

  lemma {:induction false} MapLessMeans(m: ObjectValues, n: ObjectValues)
    requires Comparable(m, n) && |m| == |n|
    ensures MapLess(m, n) <==> exists k :: FirstDifferenceLess(m, n, k)
    decreases m
  {
    hide Less, KeyPrecedes, EntryLess;
    if m != [] {
      MapLessMeans(m[1..], n[1..]);
      FirstEntries(m, n);
    }
  }

  lemma FirstEntries(m: ObjectValues, n: ObjectValues)
    requires Comparable(m, n) && |m| == |n| && m != []
    ensures EntryLess(m[0], n[0]) <==> FirstDifferenceLess(m, n, 0)
    ensures EntryLess(m[0], n[0]) || m[0] == n[0] || EntryLess(n[0], m[0])
    ensures !(EntryLess(m[0], n[0]) && EntryLess(n[0], m[0])) && !EntryLess(m[0], m[0])
    ensures m[0] == n[0] ==>
      ((exists k :: FirstDifferenceLess(m[1..], n[1..], k)) <==> exists k :: FirstDifferenceLess(m, n, k))
    ensures m[0] != n[0] ==> forall k :: FirstDifferenceLess(m, n, k) ==> k == 0
  {
    hide Less, KeyPrecedes;
    assert ValidEntry(m[0]) && ValidEntry(n[0]);
    EntryLessMeans(m[0], n[0]);
    EntryTrichotomy(m[0], n[0]);
    EntryTrichotomy(m[0], m[0]);
    assert m[..0] == n[..0];
    forall k: nat | FirstDifferenceLess(m, n, k) && k > 0
      ensures m[0] == n[0] && FirstDifferenceLess(m[1..], n[1..], k - 1)
    {
      assert m[..k][0] == n[..k][0];
      assert m[1..][..k - 1] == m[..k][1..] && n[1..][..k - 1] == n[..k][1..];
    }
    forall k: nat | m[0] == n[0] && FirstDifferenceLess(m[1..], n[1..], k) ensures FirstDifferenceLess(m, n, k + 1) {
      assert m[..k + 1] == [m[0]] + m[1..][..k] && n[..k + 1] == [n[0]] + n[1..][..k];
    }
  }

  // Of two arrays or two objects the one with fewer entries comes first; with equally many
  // the first difference decides.
  lemma ContainersAscend(a: Value, b: Value)
    requires Valid(a) && Valid(b) && ((a.Arr? && b.Arr?) || (a.Obj? && b.Obj?))
    ensures Less(a, b) <==>
      || |a.entries| < |b.entries|
      || (|a.entries| == |b.entries| && exists k :: FirstDifferenceLess(a.entries, b.entries, k))
  {
    hide MapLess, FirstDifferenceLess;
    if |a.entries| == |b.entries| {
      MapLessMeans(a.entries, b.entries);
    }
  }
}
