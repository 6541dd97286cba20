/**
 * The small helpers of pyxllib's algo/pupil: the rank lookup of make_index_function, the
 * Groups table and its groupby constructor, intersection_split and get_number_width.
 */
module Pupil {
  import opened Wrappers
  import opened PyValues
  import opened Sorting
  import opened NaturalSort

  // ---------------------------------------------------------------------------------------
  // make_index_function

  /**
   * The closure make_index_function returns: its table `{x: i for i, x in enumerate(li, start)}`
   * and its not-found value.
   */
  datatype IndexFunction<T> = IndexFunction(data: map<T, int>, nan: int)

  /** The table, built in enumeration order, so a later duplicate overwrites an earlier one. */
  function IndexTable<T>(li: seq<T>, start: int): map<T, int> {
    if li == [] then map[]
    else IndexTable(li[..|li| - 1], start)[li[|li| - 1] := start + |li| - 1]
  }

  /** make_index_function(li, start=start, nan=nan): `nan` None stands for `len(li)`. */
  function MakeIndexFunction<T>(li: seq<T>, start: int, nan: Option<int>): (f: IndexFunction<T>)
    ensures f.nan == (if nan.Some? then nan.value else |li|)
  {
    IndexFunction(IndexTable(li, start), if nan.None? then |li| else nan.value)
  }

  /** Calling the closure: `data.get(x, default)`, `default` None standing for `nan`. */
  function Lookup<T>(f: IndexFunction<T>, x: T, default: Option<int>): int {
    if x in f.data then f.data[x] else if default.None? then f.nan else default.value
  }

  /** The table holds exactly the items of `li`, each at its last position plus `start`. */
  lemma {:induction false} IndexTableSpec<T>(li: seq<T>, start: int)
    ensures IndexTable(li, start).Keys == set x | x in li
    ensures forall x :: x in IndexTable(li, start) ==>
      var k := IndexTable(li, start)[x] - start;
      0 <= k < |li| && li[k] == x && forall j :: k < j < |li| ==> li[j] != x
  {
    if li != [] {
      var init := li[..|li| - 1];
      IndexTableSpec(init, start);
      assert li == init + [li[|li| - 1]];
    }
  }

  /** An item of `li` is looked up as its last position plus `start`, whatever the default. */
  lemma LookupPresent<T>(li: seq<T>, start: int, nan: Option<int>, x: T, default: Option<int>)
    requires x in li
    ensures var k := Lookup(MakeIndexFunction(li, start, nan), x, default) - start;
      0 <= k < |li| && li[k] == x && forall j :: k < j < |li| ==> li[j] != x
  {
    IndexTableSpec(li, start);
  }

  /** A missing item gets the per-call default, else `nan`, else `len(li)`. */
  lemma LookupMissing<T>(li: seq<T>, start: int, nan: Option<int>, x: T, default: Option<int>)
    requires x !in li
    ensures Lookup(MakeIndexFunction(li, start, nan), x, default) ==
      if default.Some? then default.value else if nan.Some? then nan.value else |li|
  {
    IndexTableSpec(li, start);
  }

  /** With the defaults, every missing item ranks after every listed one. */
  lemma MissingRanksLast<T>(li: seq<T>, x: T, y: T)
    requires x in li && y !in li
    ensures Lookup(MakeIndexFunction(li, 0, None), x, None) < Lookup(MakeIndexFunction(li, 0, None), y, None)
  {
    LookupPresent(li, 0, None, x, None);
    LookupMissing(li, 0, None, y, None);
  }

  // ---------------------------------------------------------------------------------------
  // Groups

  predicate Distinct<K(==)>(keys: seq<K>) {
    forall i, j :: 0 <= i < j < |keys| ==> keys[i] != keys[j]
  }

  /** The sizes of the groups, in key order. */
  function Total<K, V>(keys: seq<K>, data: map<K, seq<V>>): nat
    requires forall k :: k in keys ==> k in data
  {
    if keys == [] then 0 else Total(keys[..|keys| - 1], data) + |data[keys[|keys| - 1]]|
  }

  /** A group that grows by one item adds one to the total. */
  lemma {:induction false} TotalGrow<K, V>(keys: seq<K>, data: map<K, seq<V>>, k: K, y: V)
    requires forall k :: k in keys ==> k in data
    requires Distinct(keys) && k in data
    ensures Total(keys, data[k := data[k] + [y]]) == Total(keys, data) + (if k in keys then 1 else 0)
  {
    if keys != [] {
      var init := keys[..|keys| - 1];
      TotalGrow(init, data, k, y);
      assert k in keys <==> k in init || k == keys[|keys| - 1];
      assert k == keys[|keys| - 1] ==> k !in init;
    }
  }

  /** A key not in the ordered keys does not change the total. */
  lemma {:induction false} TotalOther<K, V>(keys: seq<K>, data: map<K, seq<V>>, k: K, v: seq<V>)
    requires forall k :: k in keys ==> k in data
    requires k !in keys
    ensures Total(keys, data[k := v]) == Total(keys, data)
  {
    if keys != [] {
      TotalOther(keys[..|keys| - 1], data, k, v);
    }
  }

  /** What groupby stores in group `k`: `ykey(x)` (or `x`) for each `x` with `key(x) == k`, in order. */
  function Members<T, K(==)>(ls: seq<T>, key: T -> K, ykey: Option<T -> T>, k: K): seq<T> {
    if ls == [] then []
    else
      var x := ls[|ls| - 1];
      Members(ls[..|ls| - 1], key, ykey, k) + (if key(x) == k then [Grouping(x, ykey)] else [])
  }

  /** The groups: a dict (here its keys in order and its map), and the Counter of group sizes. */
  class Groups<K(==,!new), V> {
    var keys: seq<K>
    var data: map<K, seq<V>>
    var ctr: map<K, nat>

    ghost predicate Valid()
      reads this
    {
      && Distinct(keys)
      && (forall k :: k in keys <==> k in data)
      && ctr.Keys == data.Keys
      && forall k :: k in data ==> ctr[k] == |data[k]|
    }

    /** Groups(data) for a dict: kept as it is, and counted. */
    constructor (keys: seq<K>, data: map<K, seq<V>>)
      requires Distinct(keys) && forall k :: k in keys <==> k in data
      ensures Valid() && this.keys == keys && this.data == data
    {
      this.keys := keys;
      this.data := data;
      ctr := map k | k in data :: |data[k]|;
    }
  }

  /** Groups(data) for a list: the items become groups 1..n, in order. */
  method Numbered<V>(groups: seq<seq<V>>) returns (g: Groups<int, V>)
    ensures fresh(g) && g.Valid()
    ensures g.keys == seq(|groups|, i requires 0 <= i < |groups| => i + 1)
    ensures forall k :: k in g.data <==> 1 <= k <= |groups|
    ensures forall k :: 1 <= k <= |groups| ==> g.data[k] == groups[k - 1]
  {
    var keys: seq<int> := [];
    var data: map<int, seq<V>> := map[];
    var k := 1;
    while k <= |groups|
      invariant 1 <= k <= |groups| + 1
      invariant keys == seq(k - 1, i requires 0 <= i < k - 1 => i + 1)
      invariant forall i :: 0 <= i < |keys| ==> keys[i] == i + 1
      invariant forall j :: j in data <==> 1 <= j < k
      invariant forall j :: 1 <= j < k ==> data[j] == groups[j - 1]
    {
      keys, data := keys + [k], data[k := groups[k - 1]];
      k := k + 1;
    }
    forall j | 1 <= j <= |groups| ensures j in keys {
      assert keys[j - 1] == j;
    }
    g := new Groups(keys, data);
  }

  /** The keys `key` gives to the items of `ls`. */
  function KeysOf<T, K>(ls: seq<T>, key: T -> K): set<K> {
    set i | 0 <= i < |ls| :: key(ls[i])
  }

  /** The keys of the items of `ls`, each once, in the order of their first item. */
  function FirstKeys<T, K(==)>(ls: seq<T>, key: T -> K): seq<K> {
    if ls == [] then []
    else
      var ks := FirstKeys(ls[..|ls| - 1], key);
      var k := key(ls[|ls| - 1]);
      if k in ks then ks else ks + [k]
  }

  lemma FirstKeysSnoc<T, K>(done: seq<T>, x: T, key: T -> K)
    ensures FirstKeys(done + [x], key) ==
      if key(x) in FirstKeys(done, key) then FirstKeys(done, key) else FirstKeys(done, key) + [key(x)]
  {
    assert (done + [x])[..|done|] == done;
  }

  /** `keys` and `data` are the groups of `done`, keyed in first-item order, with the total size `|done|`. */
  ghost predicate Grouped<T, K(!new)>(done: seq<T>, key: T -> K, ykey: Option<T -> T>, keys: seq<K>, data: map<K, seq<T>>) {
    && Distinct(keys)
    && keys == FirstKeys(done, key)
    && (forall k :: k in keys <==> k in data)
    && data.Keys == KeysOf(done, key)
    && (forall k :: k in data ==> data[k] == Members(done, key, ykey, k))
    && Total(keys, data) == |done|
  }

  /** What the item `x` adds to its group. */
  function Grouping<T>(x: T, ykey: Option<T -> T>): T {
    if ykey.Some? then ykey.value(x) else x
  }

  /** One more item: the groups of `done + [x]` from those of `done`. */
  lemma {:induction false} MembersSnoc<T, K>(done: seq<T>, x: T, key: T -> K, ykey: Option<T -> T>, k: K)
    ensures Members(done + [x], key, ykey, k) ==
      Members(done, key, ykey, k) + (if key(x) == k then [Grouping(x, ykey)] else [])
  {
    var all := done + [x];
    assert all[..|all| - 1] == done;
  }

  lemma {:induction false} KeysOfSnoc<T, K>(done: seq<T>, x: T, key: T -> K)
    ensures KeysOf(done + [x], key) == KeysOf(done, key) + {key(x)}
  {
    var all := done + [x];
    assert forall i :: 0 <= i < |done| ==> all[i] == done[i];
    assert all[|done|] == x;
  }

  /** An item whose key already has a group joins it at the end. */
  lemma GroupJoin<T, K(!new)>(done: seq<T>, x: T, key: T -> K, ykey: Option<T -> T>, keys: seq<K>, data: map<K, seq<T>>)
    requires Grouped(done, key, ykey, keys, data) && key(x) in data
    ensures Grouped(done + [x], key, ykey, keys, data[key(x) := data[key(x)] + [Grouping(x, ykey)]])
  {
    var k := key(x);
    var data' := data[k := data[k] + [Grouping(x, ykey)]];
    assert k in keys;
    JoinKeys(done, x, key, keys);
    TotalGrow(keys, data, k, Grouping(x, ykey));
    assert data'.Keys == KeysOf(done + [x], key) by {
      KeysOfSnoc(done, x, key);
    }
    JoinMembers(done, x, key, ykey, data);
  }

  /** The contents of the groups after an item joins an existing one. */
  lemma JoinMembers<T, K>(done: seq<T>, x: T, key: T -> K, ykey: Option<T -> T>, data: map<K, seq<T>>)
    requires (forall k :: k in data ==> data[k] == Members(done, key, ykey, k)) && key(x) in data
    ensures var data' := data[key(x) := data[key(x)] + [Grouping(x, ykey)]];
      forall k' :: k' in data' ==> data'[k'] == Members(done + [x], key, ykey, k')
  {
    var data' := data[key(x) := data[key(x)] + [Grouping(x, ykey)]];
    forall k' | k' in data' ensures data'[k'] == Members(done + [x], key, ykey, k') {
      MembersSnoc(done, x, key, ykey, k');
    }
  }

  /** An item whose key already has a group leaves the key order as it is. */
  lemma JoinKeys<T, K>(done: seq<T>, x: T, key: T -> K, keys: seq<K>)
    requires keys == FirstKeys(done, key) && key(x) in keys
    ensures keys == FirstKeys(done + [x], key)
  {
    FirstKeysSnoc(done, x, key);
  }

  /** An item with a new key opens a group after all the others. */
  lemma GroupOpen<T, K(!new)>(done: seq<T>, x: T, key: T -> K, ykey: Option<T -> T>, keys: seq<K>, data: map<K, seq<T>>)
    requires Grouped(done, key, ykey, keys, data) && key(x) !in data
    ensures Grouped(done + [x], key, ykey, keys + [key(x)], data[key(x) := [Grouping(x, ykey)]])
  {
    OpenKeys(done, x, key, keys, data, [Grouping(x, ykey)]);
    OpenMembers(done, x, key, ykey, data);
    assert key(x) !in FirstKeys(done, key);
    FirstKeysSnoc(done, x, key);
  }

  /** The key bookkeeping of a new group: still distinct, still the keys of the items, one more item. */
  lemma OpenKeys<T, K(!new)>(done: seq<T>, x: T, key: T -> K, keys: seq<K>, data: map<K, seq<T>>, v: seq<T>)
    requires Distinct(keys) && (forall k :: k in keys <==> k in data) && data.Keys == KeysOf(done, key)
    requires Total(keys, data) == |done| && key(x) !in data && |v| == 1
    ensures var keys', data' := keys + [key(x)], data[key(x) := v];
      && Distinct(keys') && (forall k :: k in keys' <==> k in data')
      && data'.Keys == KeysOf(done + [x], key) && Total(keys', data') == |done| + 1
  {
    var k := key(x);
    var keys', data' := keys + [k], data[k := v];
    assert Distinct(keys') by {
      forall i | 0 <= i < |keys| ensures keys'[i] == keys[i] && keys[i] != k {
        assert keys[i] in keys;
      }
    }
    assert forall k' :: k' in keys' <==> k' in keys || k' == k;
    KeysOfSnoc(done, x, key);
    assert Total(keys', data') == |done| + 1 by {
      TotalOther(keys, data, k, v);
      assert keys'[..|keys'| - 1] == keys;
    }
  }

  /** The contents of the groups after a new one opens. */
  lemma OpenMembers<T, K>(done: seq<T>, x: T, key: T -> K, ykey: Option<T -> T>, data: map<K, seq<T>>)
    requires (forall k :: k in data ==> data[k] == Members(done, key, ykey, k)) && data.Keys == KeysOf(done, key)
    requires key(x) !in data
    ensures var data' := data[key(x) := [Grouping(x, ykey)]];
      forall k' :: k' in data' ==> data'[k'] == Members(done + [x], key, ykey, k')
  {
    var data' := data[key(x) := [Grouping(x, ykey)]];
    forall k' | k' in data' ensures data'[k'] == Members(done + [x], key, ykey, k') {
      MembersSnoc(done, x, key, ykey, k');
      if k' == key(x) {
        MembersAbsent(done, key, ykey, k');
      }
    }
  }

  /**
   * Groups.groupby: every item joins the group of its key, as `ykey(x)` when `ykey` is given;
   * the groups appear in order of their first item.
   */
  method GroupBy<T, K(==,!new)>(ls: seq<T>, key: T -> K, ykey: Option<T -> T>) returns (g: Groups<K, T>)
    ensures fresh(g) && g.Valid()
    ensures g.keys == FirstKeys(ls, key)
    ensures g.data.Keys == KeysOf(ls, key)
    ensures forall k :: k in g.data ==> g.data[k] == Members(ls, key, ykey, k)
    ensures Total(g.keys, g.data) == |ls|
  {
    var keys: seq<K> := [];
    var data: map<K, seq<T>> := map[];
    var i := 0;
    while i < |ls|
      invariant 0 <= i <= |ls|
      invariant Grouped(ls[..i], key, ykey, keys, data)
    {
      var x := ls[i];
      var k := key(x);
      var y := Grouping(x, ykey);
      assert ls[..i + 1] == ls[..i] + [x];
      if k in data {
        GroupJoin(ls[..i], x, key, ykey, keys, data);
        data := data[k := data[k] + [y]];
      } else {
        GroupOpen(ls[..i], x, key, ykey, keys, data);
        keys, data := keys + [k], data[k := [y]];
      }
      i := i + 1;
    }
    assert ls[..i] == ls;
    g := new Groups(keys, data);
  }

  /** A key no item has gets an empty group. */
  lemma {:induction false} MembersAbsent<T, K>(ls: seq<T>, key: T -> K, ykey: Option<T -> T>, k: K)
    requires k !in KeysOf(ls, key)
    ensures Members(ls, key, ykey, k) == []
  {
    if ls != [] {
      var init := ls[..|ls| - 1];
      assert KeysOf(init, key) <= KeysOf(ls, key) by {
        assert forall i :: 0 <= i < |init| ==> init[i] == ls[i];
      }
      MembersAbsent(init, key, ykey, k);
    }
  }

  // ---------------------------------------------------------------------------------------
  // intersection_split

  /** The argument kinds intersection_split tells apart. */
  datatype Collection<V> =
    | SetLike(elems: seq<string>)                       // a set, list or tuple
    | Dict(dkeys: seq<string>, items: map<string, V>)   // a dict: its keys, in order, and its items
    | OtherIterable(elems: seq<string>)                 // iterable, such as a str, but none of those
    | NotIterable                                       // `set(t)` raises TypeError

  /** `set(t)`. */
  function KeySet<V>(t: Collection<V>): set<string>
    requires !t.NotIterable?
  {
    match t
    case SetLike(elems) => set x | x in elems
    case Dict(dkeys, _) => set x | x in dkeys
    case OtherIterable(elems) => set x | x in elems
  }

  /** A dict is well formed when its key list and its items agree. */
  predicate WellFormed<V>(t: Collection<V>) {
    t.Dict? ==> (set k | k in t.dkeys) == t.items.Keys
  }

  /** One half of the result: a set of keys, or a list of (key, value) items. */
  datatype Side<V> = Keys(keys: set<string>) | Items(pairs: seq<(string, V)>)

  function ItemLess<V>(p: (string, V), q: (string, V)): bool {
    NaturalLess(p.0, q.0)
  }

  /** The keys of `ks`, in an order the set's iteration leaves open. */
  method Enumerate(ks: set<string>) returns (xs: seq<string>)
    ensures Distinct(xs) && (set x | x in xs) == ks
  {
    xs := [];
    var left := ks;
    while left != {}
      invariant left <= ks && Distinct(xs)
      invariant (set x | x in xs) == ks - left
      decreases left
    {
      var x :| x in left;
      assert (set z | z in xs + [x]) == (set z | z in xs) + {x};
      xs, left := xs + [x], left - {x};
    }
  }

  /** The items of a dict with the given keys, sorted by the keys' natural sort keys. */
  method SortedItems<V(!new)>(items: map<string, V>, ks: set<string>) returns (pairs: seq<(string, V)>)
    requires ks <= items.Keys
    ensures SplitItems(pairs, items, ks)
  {
    var xs := Enumerate(ks);
    pairs := Sort(ItemsOf(xs, items), ItemLess);
    SortedItemsSpec(xs, items);
  }

  /** `(x, t[x])` for each key `x` of `xs`. */
  function ItemsOf<V>(xs: seq<string>, items: map<string, V>): (r: seq<(string, V)>)
    requires forall x :: x in xs ==> x in items
    ensures |r| == |xs| && forall i :: 0 <= i < |xs| ==> r[i] == (xs[i], items[xs[i]])
  {
    seq(|xs|, i requires 0 <= i < |xs| => (xs[i], items[xs[i]]))
  }

  /** Sorting the items of distinct keys lists each key once, with its value, in natural key order. */
  lemma SortedItemsSpec<V(!new)>(xs: seq<string>, items: map<string, V>)
    requires Distinct(xs) && forall x :: x in xs ==> x in items
    ensures SplitItems(Sort(ItemsOf(xs, items), ItemLess), items, set x | x in xs)
  {
    var unsorted := ItemsOf(xs, items);
    var pairs := Sort(unsorted, ItemLess);
    SortPermutes(unsorted, ItemLess);
    ItemLessStrict<V>();
    SortSorts(unsorted, ItemLess);
    forall p | p in pairs ensures p in unsorted {
      assert p in multiset(pairs);
    }
    forall x | x in xs ensures exists p :: p in pairs && p.0 == x {
      var i :| 0 <= i < |xs| && xs[i] == x;
      assert unsorted[i] in multiset(unsorted);
    }
    DistinctCard(xs);
  }

  lemma ItemLessStrict<V(!new)>()
    ensures StrictOrder(ItemLess<V>)
  {
    KeyLessStrict();
  }

  /** A list without repeats has as many elements as its set. */
  lemma {:induction false} DistinctCard<K>(xs: seq<K>)
    requires Distinct(xs)
    ensures |set x | x in xs| == |xs|
  {
    if xs != [] {
      var init := xs[..|xs| - 1];
      DistinctCard(init);
      assert (set x | x in xs) == (set x | x in init) + {xs[|xs| - 1]};
    }
  }

  /**
   * The two halves `split` makes of `t` for the keys `shared` and `rest`: those sets themselves
   * for a set, list or tuple, and for a dict the items of those keys, in natural key order.
   */
  ghost predicate Halves<V>(t: Collection<V>, shared: set<string>, rest: set<string>, h: (Side<V>, Side<V>)) {
    match t
    case SetLike(_) => h == (Keys(shared), Keys(rest))
    case Dict(_, items) =>
      h.0.Items? && SplitItems(h.0.pairs, items, shared) && h.1.Items? && SplitItems(h.1.pairs, items, rest)
    case _ => false
  }

  /** `split(t, s, ks)`: the shared keys and the rest, as sets or as sorted items. */
  method SplitSide<V(!new)>(t: Collection<V>, ks: set<string>) returns (r: Result<(Side<V>, Side<V>), Error>)
    requires WellFormed(t) && !t.NotIterable? && ks <= KeySet(t)
    ensures t.OtherIterable? <==> r.Err?
    ensures r.Err? ==> r.error.ValueError?
    ensures r.Ok? ==> Halves(t, ks, KeySet(t) - ks, r.value)
  {
    match t
    case SetLike(_) =>
      return Ok((Keys(ks), Keys(KeySet(t) - ks)));
    case Dict(_, items) =>
      var shared := SortedItems(items, ks);
      var own := SortedItems(items, KeySet(t) - ks);
      return Ok((Items(shared), Items(own)));
    case OtherIterable(_) =>
      return Err(ValueError("not a type for set analysis"));
  }

  /** `pairs` lists exactly the keys `ks` once each, with their values, in natural key order. */
  ghost predicate SplitItems<V>(pairs: seq<(string, V)>, items: map<string, V>, ks: set<string>) {
    && (set p | p in pairs :: p.0) == ks && |pairs| == |ks|
    && (forall p :: p in pairs ==> p.0 in items && p.1 == items[p.0])
    && SortedBy(pairs, ItemLess)
  }

  /**
   * intersection_split(a, b): the keys of `a` shared with `b` and its own keys, then the same
   * for `b`; `set(a)` and `set(b)` fail first on a value that cannot be iterated.
   */
  method IntersectionSplit<V(!new)>(a: Collection<V>, b: Collection<V>)
    returns (r: Result<(Side<V>, Side<V>, Side<V>, Side<V>), Error>)
    requires WellFormed(a) && WellFormed(b)
    ensures a.NotIterable? || b.NotIterable? ==> r.Err? && r.error.TypeError?
    ensures !a.NotIterable? && !b.NotIterable? ==>
      (r.Err? <==> a.OtherIterable? || b.OtherIterable?) && (r.Err? ==> r.error.ValueError?)
    ensures r.Ok? ==>
      && Halves(a, KeySet(a) * KeySet(b), KeySet(a) - KeySet(b), (r.value.0, r.value.1))
      && Halves(b, KeySet(a) * KeySet(b), KeySet(b) - KeySet(a), (r.value.2, r.value.3))
    // each argument's keys are split into the keys both share and its own, with nothing in both
    ensures r.Ok? ==>
      && SideKeys(r.value.0) == SideKeys(r.value.2) == KeySet(a) * KeySet(b)
      && SideKeys(r.value.0) + SideKeys(r.value.1) == KeySet(a) && SideKeys(r.value.0) * SideKeys(r.value.1) == {}
      && SideKeys(r.value.2) + SideKeys(r.value.3) == KeySet(b) && SideKeys(r.value.2) * SideKeys(r.value.3) == {}
  {
    if a.NotIterable? || b.NotIterable? {
      return Err(TypeError("object is not iterable"));
    }
    var keys1, keys2 := KeySet(a), KeySet(b);
    var keys0 := keys1 * keys2;
    var left := SplitSide(a, keys0);
    if left.Err? {
      return Err(left.error);
    }
    var right := SplitSide(b, keys0);
    if right.Err? {
      return Err(right.error);
    }
    assert keys1 - keys0 == keys1 - keys2 && keys2 - keys0 == keys2 - keys1;
    assert (left.value.0, left.value.1) == left.value && (right.value.0, right.value.1) == right.value;
    SplitKeys(a, b, left.value.0, left.value.1, right.value.0, right.value.1);
    return Ok((left.value.0, left.value.1, right.value.0, right.value.1));
  }

  /** The keys a half holds: the set itself, or the keys of its items. */
  ghost function SideKeys<V>(h: Side<V>): set<string> {
    match h
    case Keys(ks) => ks
    case Items(pairs) => set p | p in pairs :: p.0
  }

  /** The halves of both arguments split each one's keys into the shared keys and its own. */
  lemma SplitKeys<V>(a: Collection<V>, b: Collection<V>, a0: Side<V>, a1: Side<V>, b0: Side<V>, b1: Side<V>)
    requires !a.NotIterable? && !b.NotIterable?
    requires Halves(a, KeySet(a) * KeySet(b), KeySet(a) - KeySet(b), (a0, a1))
    requires Halves(b, KeySet(a) * KeySet(b), KeySet(b) - KeySet(a), (b0, b1))
    ensures SideKeys(a0) == SideKeys(b0) == KeySet(a) * KeySet(b)
    ensures SideKeys(a0) + SideKeys(a1) == KeySet(a) && SideKeys(a0) * SideKeys(a1) == {}
    ensures SideKeys(b0) + SideKeys(b1) == KeySet(b) && SideKeys(b0) * SideKeys(b1) == {}
  {
    HalvesKeys(a, KeySet(a) * KeySet(b), KeySet(a) - KeySet(b), (a0, a1));
    HalvesKeys(b, KeySet(a) * KeySet(b), KeySet(b) - KeySet(a), (b0, b1));
  }

  /** Each half holds exactly the keys it was given. */
  lemma HalvesKeys<V>(t: Collection<V>, shared: set<string>, rest: set<string>, h: (Side<V>, Side<V>))
    requires Halves(t, shared, rest, h)
    ensures SideKeys(h.0) == shared && SideKeys(h.1) == rest
  {
  }

  // ---------------------------------------------------------------------------------------
  // get_number_width

  function Pow10(e: nat): (p: nat)
    ensures p >= 1
  {
    if e == 0 then 1 else 10 * Pow10(e - 1)
  }

  /** get_number_width: the number of decimal digits of a positive `n`. */
  function NumberWidth(n: int): (r: Result<nat, Error>)
    ensures n <= 0 <==> r == Err(AssertionError)
    ensures r.Ok? ==> r.value >= 1
  {
    if n <= 0 then Err(AssertionError)
    else if n < 10 then Ok(1)
    else
      var w := NumberWidth(n / 10);
      Ok(w.value + 1)
  }

  /** The width `w` of a positive `n` is the one with `10^(w-1) <= n < 10^w`. */
  lemma {:induction false} NumberWidthBounds(n: int)
    requires n > 0
    ensures var w := NumberWidth(n).value; Pow10(w - 1) <= n < Pow10(w)
  {
    if n >= 10 {
      var q := n / 10;
      NumberWidthBounds(q);
      var w := NumberWidth(q).value;
      assert NumberWidth(n).value == w + 1;
      assert Pow10(w) == 10 * Pow10(w - 1);
      assert Pow10(w + 1) == 10 * Pow10(w);
      assert 10 * q <= n < 10 * q + 10;
    }
  }

  /** The width is the length of the number's decimal spelling. */
  lemma {:induction false} NumberWidthDigits(n: nat)
    requires n > 0
    ensures NumberWidth(n) == Ok(|DecimalString(n)|)
  {
    if n >= 10 {
      NumberWidthDigits(n / 10);
    }
  }

  lemma NumberWidthExamples()
    ensures NumberWidth(0) == Err(AssertionError)
    ensures NumberWidth(9) == Ok(1) && NumberWidth(10) == Ok(2) && NumberWidth(97) == Ok(2)
  {
  }
}
