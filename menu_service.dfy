// app/services/menu_service.py: item names made comparable, the
// comparison of a recognised menu with the stored one, the regrouping of
// loose items by category, and the two ways a menu is written back. A
// menu travels as nested dictionaries; here as `MenuData`.

module MenuService {
  import opened Common
  import opened Tables
  import Sorting
  import StoreRepo
  import Cache

  /** An item dictionary: as serialised from the tables, as recognised,
      or as sent to be applied. `category` is the optional key the
      comparison adds and the grouping consumes. */
  datatype ItemData = ItemData(
    name: string, price: int, description: Option<string>, variants: seq<Variant>,
    promo: Option<Promo>, category: Option<string>)

  datatype CategoryData = CategoryData(name: string, items: seq<ItemData>)
  datatype MenuData = MenuData(categories: seq<CategoryData>)

  // ---------------------------------------------------------------
  // _normalize_name

  /** CJK and full-width punctuation, which `\W` matches. */
  predicate IsWidePunct(c: char) {
    ('\U{3001}' <= c <= '\U{3003}') || ('\U{3008}' <= c <= '\U{3011}')
    || ('\U{ff01}' <= c <= '\U{ff0f}') || ('\U{ff1a}' <= c <= '\U{ff20}')
    || c == '\U{ff5e}' || c == '\U{b7}' || c == '\U{2014}' || c == '\U{2026}'
  }

  /** The regex class `\w`: ASCII letters, digits and `_`, and the other
      characters beyond ASCII that are neither whitespace nor punctuation. */
  predicate IsWordChar(c: char) {
    ('a' <= c <= 'z') || ('A' <= c <= 'Z') || ('0' <= c <= '9') || c == '_'
    || (c >= '\U{80}' && !IsWs(c) && !IsWidePunct(c))
  }

  /** `_normalize_name`: lower-cased, whitespace and non-word characters dropped. */
  function Normalize(name: string): (r: string)
    ensures |r| <= |name|
    ensures forall i :: 0 <= i < |r| ==> IsWordChar(r[i]) && !IsWs(r[i]) && !('A' <= r[i] <= 'Z')
  {
    if name == [] then []
    else
      var c := LowerChar(name[0]);
      (if IsWordChar(c) then [c] else []) + Normalize(name[1..])
  }

  /** A name that is already normalised is its own normal form. */
  lemma {:induction false} NormalizeFixes(t: string)
    requires forall i :: 0 <= i < |t| ==> IsWordChar(t[i]) && !('A' <= t[i] <= 'Z')
    ensures Normalize(t) == t
    decreases |t|
  {
    if t != [] {
      NormalizeFixes(t[1..]);
      assert t == [t[0]] + t[1..];
    }
  }

  /** Normalising twice is normalising once. */
  lemma NormalizeIdempotent(name: string)
    ensures Normalize(Normalize(name)) == Normalize(name)
  {
    NormalizeFixes(Normalize(name));
  }

  /** Names differing only in ASCII letter case normalise alike. */
  lemma {:induction false} NormalizeIgnoresCase(name: string)
    ensures Normalize(Lower(name)) == Normalize(name)
    decreases |name|
  {
    if name != [] {
      NormalizeIgnoresCase(name[1..]);
      assert Lower(name)[1..] == Lower(name[1..]);
    }
  }

  function Key(x: ItemData): string { Normalize(x.name) }

  // ---------------------------------------------------------------
  // _items_differ / _get_item_changes

  function VariantName(v: Variant): string { v.name }

  function SortedVariants(vs: seq<Variant>): seq<Variant> {
    Sorting.SortAsc(vs, VariantName)
  }

  /** `_items_differ`: price, variants sorted by name, or promotion; the
      description, the name and the category are not compared. */
  predicate ItemsDiffer(a: ItemData, b: ItemData) {
    a.price != b.price || SortedVariants(a.variants) != SortedVariants(b.variants) || a.promo != b.promo
  }

  /** The order in which two differently named variants are listed does
      not make an item differ. */
  lemma VariantOrderIgnored(a: ItemData, v: Variant, w: Variant)
    requires v.name != w.name
    ensures !ItemsDiffer(a.(variants := [v, w]), a.(variants := [w, v]))
  {
    Sorting.StrLeTotal(v.name, w.name);
    if Sorting.StrLe(v.name, w.name) && Sorting.StrLe(w.name, v.name) {
      Sorting.StrLeAntisymmetric(v.name, w.name);
    }
    assert [v, w][1..] == [w] && [w, v][1..] == [v];
    assert [v][1..] == [] && [w][1..] == [];
    assert Sorting.SortAsc([v][1..], VariantName) == [];
    assert Sorting.SortAsc([w][1..], VariantName) == [];
    assert SortedVariants([v]) == Sorting.InsertAsc(v, [], VariantName) == [v];
    assert SortedVariants([w]) == Sorting.InsertAsc(w, [], VariantName) == [w];
  }

  datatype Change = PriceChange(oldPrice: int, newPrice: int) | VariantChange | PromoChange(oldLabel: string, newLabel: string)

  /** `{v["name"]: v["price"] for v in variants}`: a later variant of the
      same name wins. */
  function VariantPrices(vs: seq<Variant>): map<string, int> {
    if vs == [] then map[]
    else VariantPrices(vs[..|vs| - 1])[vs[|vs| - 1].name := vs[|vs| - 1].price]
  }

  /** A promotion's label, "無" when there is none. */
  function PromoLabel(p: Option<Promo>): string {
    if p.Some? && p.value.labelText.Some? then p.value.labelText.value else "無"
  }

  /** `_get_item_changes`: the price, the variant prices by name, and the
      promotion label, in that order. */
  function ItemChanges(a: ItemData, b: ItemData): seq<Change> {
    (if a.price != b.price then [PriceChange(a.price, b.price)] else [])
    + (if VariantPrices(a.variants) != VariantPrices(b.variants) then [VariantChange] else [])
    + (if a.promo != b.promo then [PromoChange(PromoLabel(a.promo), PromoLabel(b.promo))] else [])
  }

  /** An item has no changes against itself; a price or promotion change
      is reported exactly when the item differs there. */
  lemma ItemChangesFacts(a: ItemData, b: ItemData)
    ensures ItemChanges(a, a) == []
    ensures |ItemChanges(a, b)| <= 3
    ensures PriceChange(a.price, b.price) in ItemChanges(a, b) <==> a.price != b.price
    ensures PromoChange(PromoLabel(a.promo), PromoLabel(b.promo)) in ItemChanges(a, b) <==> a.promo != b.promo
    ensures a.price != b.price || a.promo != b.promo ==> ItemsDiffer(a, b) && ItemChanges(a, b) != []
  {
  }

  /** The two comparisons disagree on repeated variant names: the item
      below counts as modified, yet no change is listed for it. */
  lemma ModifiedWithoutChanges()
    ensures var a := ItemData("tea", 30, None, [Variant("M", 50), Variant("M", 60)], None, None);
      var b := a.(variants := [Variant("M", 60)]);
      ItemsDiffer(a, b) && ItemChanges(a, b) == []
  {
    var a := ItemData("tea", 30, None, [Variant("M", 50), Variant("M", 60)], None, None);
    var b := a.(variants := [Variant("M", 60)]);
    assert [Variant("M", 50), Variant("M", 60)][..1] == [Variant("M", 50)];
    assert |SortedVariants(a.variants)| == 2 by {
      Sorting.SortAscCorrect(a.variants, VariantName);
      assert |multiset(SortedVariants(a.variants))| == |multiset(a.variants)|;
    }
  }

  // ---------------------------------------------------------------
  // Dictionaries keyed by normalised name, in insertion order

  /** A Python dict from normalised name to item: keys in insertion
      order, values by key. */
  datatype Dict = Dict(keys: seq<string>, vals: map<string, ItemData>)

  ghost predicate ValidDict(d: Dict) {
    Distinct(d.keys) && forall k :: k in d.vals <==> k in d.keys
  }

  function Lookup(d: Dict, k: string): Option<ItemData> {
    if k in d.vals then Some(d.vals[k]) else None
  }

  /** `d[k] = v`: a new key goes last, an existing key keeps its place. */
  function Put(d: Dict, k: string, v: ItemData): (r: Dict)
    requires ValidDict(d)
    ensures ValidDict(r)
    ensures forall j :: Lookup(r, j) == if j == k then Some(v) else Lookup(d, j)
  {
    if k in d.vals then Dict(d.keys, d.vals[k := v]) else Dict(d.keys + [k], d.vals[k := v])
  }

  /** `del d[k]` guarded by `k in d`. */
  function Remove(d: Dict, k: string): (r: Dict)
    requires ValidDict(d)
    ensures ValidDict(r)
    ensures forall j :: Lookup(r, j) == if j == k then None else Lookup(d, j)
  {
    if k in d.vals then
      FilterDistinct(d.keys, (x: string) => x != k);
      Dict(Filter(d.keys, (x: string) => x != k), d.vals - {k})
    else d
  }

  /** `list(d.values())`. */
  function Values(d: Dict): (r: seq<ItemData>)
    requires ValidDict(d)
    ensures |r| == |d.keys|
    ensures forall i :: 0 <= i < |r| ==> r[i] == d.vals[d.keys[i]]
  {
    seq(|d.keys|, i requires 0 <= i < |d.keys| && ValidDict(d) => d.vals[d.keys[i]])
  }

  // ---------------------------------------------------------------
  // The index of a menu (the first loops of compare_menus and save_menu_diff)

  /** `{"category": cat["name"], **item}`: the item's own key wins. */
  function Tagged(x: ItemData, categoryName: string): ItemData {
    if x.category.Some? then x else x.(category := Some(categoryName))
  }

  function TagAll(items: seq<ItemData>, categoryName: string): (r: seq<ItemData>)
    ensures |r| == |items|
    ensures forall i :: 0 <= i < |items| ==> r[i] == Tagged(items[i], categoryName)
  {
    seq(|items|, i requires 0 <= i < |items| => Tagged(items[i], categoryName))
  }

  /** Every item of every category, tagged with its category, in order. */
  function Entries(categories: seq<CategoryData>): seq<ItemData> {
    if categories == [] then []
    else
      var c := categories[|categories| - 1];
      Entries(categories[..|categories| - 1]) + TagAll(c.items, c.name)
  }

  /** The last entry whose name normalises to `k`. */
  function LastWithKey(entries: seq<ItemData>, k: string): (r: Option<ItemData>)
    ensures r.Some? ==> r.value in entries && Key(r.value) == k
    ensures r.None? <==> forall i :: 0 <= i < |entries| ==> Key(entries[i]) != k
  {
    if entries == [] then None
    else if Key(entries[|entries| - 1]) == k then Some(entries[|entries| - 1])
    else LastWithKey(entries[..|entries| - 1], k)
  }

  /** The dictionary the entries build, one assignment each. */
  function Index(entries: seq<ItemData>): (d: Dict)
    ensures ValidDict(d)
    ensures forall k :: Lookup(d, k) == LastWithKey(entries, k)
  {
    if entries == [] then Dict([], map[])
    else
      var last := entries[|entries| - 1];
      Put(Index(entries[..|entries| - 1]), Key(last), last)
  }

  /** Every item of a menu, indexed by normalised name; a later item of
      the same normalised name replaces an earlier one. */
  function MenuIndex(menu: MenuData): Dict {
    Index(Entries(menu.categories))
  }

  /** The inner indexing loop: the items of one category. */
  method IndexCategory(d0: Dict, ghost before: seq<ItemData>, c: CategoryData) returns (d: Dict)
    requires d0 == Index(before)
    ensures d == Index(before + TagAll(c.items, c.name))
  {
    d := d0;
    var j := 0;
    assert before + TagAll(c.items[..0], c.name) == before;
    while j < |c.items|
      invariant 0 <= j <= |c.items|
      invariant d == Index(before + TagAll(c.items[..j], c.name))
    {
      var x := Tagged(c.items[j], c.name);
      IndexStep(before, c, j);
      d := Put(d, Key(x), x);
      j := j + 1;
    }
    assert c.items[..j] == c.items;
  }

  /** One more item of a category is one more assignment to the index. */
  lemma IndexStep(before: seq<ItemData>, c: CategoryData, j: int)
    requires 0 <= j < |c.items|
    ensures Index(before + TagAll(c.items[..j + 1], c.name))
            == Put(Index(before + TagAll(c.items[..j], c.name)), Key(Tagged(c.items[j], c.name)), Tagged(c.items[j], c.name))
  {
    var x := Tagged(c.items[j], c.name);
    var es := before + TagAll(c.items[..j], c.name);
    assert TagAll(c.items[..j + 1], c.name) == TagAll(c.items[..j], c.name) + [x];
    assert before + TagAll(c.items[..j + 1], c.name) == es + [x];
    assert (es + [x])[..|es|] == es;
  }

  /** The indexing loops of `compare_menus` and `save_menu_diff`. */
  method BuildIndex(menu: MenuData) returns (d: Dict)
    ensures d == MenuIndex(menu)
  {
    var cats := menu.categories;
    d := Dict([], map[]);
    var i := 0;
    while i < |cats|
      invariant 0 <= i <= |cats|
      invariant d == Index(Entries(cats[..i]))
    {
      d := IndexCategory(d, Entries(cats[..i]), cats[i]);
      assert cats[..i + 1][..i] == cats[..i];
      i := i + 1;
    }
    assert cats[..i] == cats;
  }

  /** An item is what its own normalised name looks up in the index. */
  predicate InIndex(x: ItemData, d: Dict) {
    Lookup(d, Key(x)) == Some(x)
  }

  // ---------------------------------------------------------------
  // compare_menus

  datatype Modification = Modification(before: ItemData, after: ItemData, changes: seq<Change>)

  datatype MenuDiff = MenuDiff(
    added: seq<ItemData>, modified: seq<Modification>, same: seq<ItemData>, removed: seq<ItemData>)

  /** The pass over the new index: each key is added, modified or unchanged. */
  function Classify(keys: seq<string>, o: Dict, n: Dict): MenuDiff
    requires forall i :: 0 <= i < |keys| ==> keys[i] in n.vals
  {
    if keys == [] then MenuDiff([], [], [], [])
    else
      var d := Classify(keys[..|keys| - 1], o, n);
      var k := keys[|keys| - 1];
      var x := n.vals[k];
      if k !in o.vals then d.(added := d.added + [x])
      else if ItemsDiffer(o.vals[k], x) then
        d.(modified := d.modified + [Modification(o.vals[k], x, ItemChanges(o.vals[k], x))])
      else d.(same := d.same + [x])
  }

  /** The pass over the old index: the keys the new menu lacks. */
  function Removed(keys: seq<string>, o: Dict, n: Dict): seq<ItemData>
    requires forall i :: 0 <= i < |keys| ==> keys[i] in o.vals
  {
    if keys == [] then []
    else
      var k := keys[|keys| - 1];
      Removed(keys[..|keys| - 1], o, n) + (if k !in n.vals then [o.vals[k]] else [])
  }

  /** `compare_menus`. */
  function Compare(oldMenu: MenuData, newMenu: MenuData): MenuDiff {
    var o := MenuIndex(oldMenu);
    var n := MenuIndex(newMenu);
    Classify(n.keys, o, n).(removed := Removed(o.keys, o, n))
  }

  /** Every index key is the normalised name of the item it holds. */
  lemma IndexKeyed(entries: seq<ItemData>, k: string)
    requires k in Index(entries).vals
    ensures Key(Index(entries).vals[k]) == k
  {
    assert Lookup(Index(entries), k) == LastWithKey(entries, k);
  }

  /** What each list of the pass over the new index holds. */
  lemma {:induction false} ClassifyMembers(keys: seq<string>, o: Dict, n: Dict)
    requires forall i :: 0 <= i < |keys| ==> keys[i] in n.vals
    requires forall k :: k in n.vals ==> Key(n.vals[k]) == k
    ensures var d := Classify(keys, o, n);
      |d.added| + |d.modified| + |d.same| == |keys|
      && (forall x :: x in d.added <==> Key(x) in keys && InIndex(x, n) && Key(x) !in o.vals)
      && (forall x :: x in d.same <==>
            Key(x) in keys && InIndex(x, n) && Key(x) in o.vals && !ItemsDiffer(o.vals[Key(x)], x))
      && (forall m :: m in d.modified <==>
            Key(m.after) in keys && InIndex(m.after, n) && Key(m.after) in o.vals
            && m.before == o.vals[Key(m.after)] && ItemsDiffer(m.before, m.after) && m.changes == ItemChanges(m.before, m.after))
    decreases |keys|
  {
    if keys != [] {
      var init := keys[..|keys| - 1];
      assert forall k :: k in keys <==> k in init || k == keys[|keys| - 1];
      ClassifyMembers(init, o, n);
    }
  }

  /** What the pass over the old index holds. */
  lemma {:induction false} RemovedMembers(keys: seq<string>, o: Dict, n: Dict)
    requires forall i :: 0 <= i < |keys| ==> keys[i] in o.vals
    requires forall k :: k in o.vals ==> Key(o.vals[k]) == k
    ensures forall x :: x in Removed(keys, o, n) <==> Key(x) in keys && InIndex(x, o) && Key(x) !in n.vals
    decreases |keys|
  {
    if keys != [] {
      var init := keys[..|keys| - 1];
      assert forall k :: k in keys <==> k in init || k == keys[|keys| - 1];
      RemovedMembers(init, o, n);
    }
  }

  /** `compare_menus` files every item of the new menu under exactly one
      of added (name unknown before), modified (known, and differing) and
      unchanged (known, not differing); removed is exactly the old items
      whose name the new menu lacks. */
  lemma CompareFacts(oldMenu: MenuData, newMenu: MenuData)
    ensures var o := MenuIndex(oldMenu);
      var n := MenuIndex(newMenu);
      var d := Compare(oldMenu, newMenu);
      |d.added| + |d.modified| + |d.same| == |n.keys|
      && (forall x :: x in d.added <==> InIndex(x, n) && Key(x) !in o.vals)
      && (forall x :: x in d.same <==> InIndex(x, n) && Key(x) in o.vals && !ItemsDiffer(o.vals[Key(x)], x))
      && (forall m :: m in d.modified <==>
            InIndex(m.after, n) && Key(m.after) in o.vals && m.before == o.vals[Key(m.after)]
            && ItemsDiffer(m.before, m.after) && m.changes == ItemChanges(m.before, m.after))
      && (forall x :: x in d.removed <==> InIndex(x, o) && Key(x) !in n.vals)
  {
    var o := MenuIndex(oldMenu);
    var n := MenuIndex(newMenu);
    forall k | k in n.vals ensures Key(n.vals[k]) == k {
      IndexKeyed(Entries(newMenu.categories), k);
    }
    forall k | k in o.vals ensures Key(o.vals[k]) == k {
      IndexKeyed(Entries(oldMenu.categories), k);
    }
    ClassifyMembers(n.keys, o, n);
    RemovedMembers(o.keys, o, n);
  }

  /** Against an index of the same keys, every item is same. */
  lemma {:induction false} ClassifySelf(keys: seq<string>, d: Dict)
    requires forall i :: 0 <= i < |keys| ==> keys[i] in d.vals
    ensures Classify(keys, d, d).added == [] && Classify(keys, d, d).modified == []
    ensures |Classify(keys, d, d).same| == |keys|
    ensures forall i :: 0 <= i < |keys| ==> Classify(keys, d, d).same[i] == d.vals[keys[i]]
    ensures Removed(keys, d, d) == []
    decreases |keys|
  {
    if keys != [] {
      ClassifySelf(keys[..|keys| - 1], d);
      var x := d.vals[keys[|keys| - 1]];
      assert !ItemsDiffer(x, x);
    }
  }

  /** Comparing a menu with itself adds, modifies and removes nothing. */
  lemma CompareSelf(menu: MenuData)
    ensures Compare(menu, menu).added == []
    ensures Compare(menu, menu).modified == []
    ensures Compare(menu, menu).removed == []
    ensures Compare(menu, menu).same == Values(MenuIndex(menu))
  {
    var d := MenuIndex(menu);
    ClassifySelf(d.keys, d);
  }

  /** The loops of `compare_menus`. */
  method CompareMenus(oldMenu: MenuData, newMenu: MenuData) returns (diff: MenuDiff)
    ensures diff == Compare(oldMenu, newMenu)
  {
    var o := BuildIndex(oldMenu);
    var n := BuildIndex(newMenu);
    var d := ClassifyLoop(o, n);
    var removed := RemovedLoop(o, n);
    diff := d.(removed := removed);
  }

  /** The first loop of `compare_menus`, over the new index. */
  method ClassifyLoop(o: Dict, n: Dict) returns (d: MenuDiff)
    requires ValidDict(n)
    ensures d == Classify(n.keys, o, n)
  {
    var added: seq<ItemData> := [];
    var modified: seq<Modification> := [];
    var same: seq<ItemData> := [];
    var i := 0;
    while i < |n.keys|
      invariant 0 <= i <= |n.keys|
      invariant MenuDiff(added, modified, same, []) == Classify(n.keys[..i], o, n)
    {
      var k := n.keys[i];
      var x := n.vals[k];
      if k !in o.vals {
        added := added + [x];
      } else if ItemsDiffer(o.vals[k], x) {
        modified := modified + [Modification(o.vals[k], x, ItemChanges(o.vals[k], x))];
      } else {
        same := same + [x];
      }
      assert n.keys[..i + 1][..i] == n.keys[..i];
      i := i + 1;
    }
    assert n.keys[..i] == n.keys;
    d := MenuDiff(added, modified, same, []);
  }

  /** The second loop of `compare_menus`, over the old index. */
  method RemovedLoop(o: Dict, n: Dict) returns (removed: seq<ItemData>)
    requires ValidDict(o)
    ensures removed == Removed(o.keys, o, n)
  {
    removed := [];
    var j := 0;
    while j < |o.keys|
      invariant 0 <= j <= |o.keys|
      invariant removed == Removed(o.keys[..j], o, n)
    {
      var k := o.keys[j];
      if k !in n.vals {
        removed := removed + [o.vals[k]];
      }
      assert o.keys[..j + 1][..j] == o.keys[..j];
      j := j + 1;
    }
    assert o.keys[..j] == o.keys;
  }

  // ---------------------------------------------------------------
  // _group_items_by_category

  const Uncategorized: string := "未分類"

  /** `item.get("category", "未分類")`. */
  function CategoryOf(x: ItemData): string {
    if x.category.Some? then x.category.value else Uncategorized
  }

  /** The item without its `category` key. */
  function Stripped(x: ItemData): ItemData {
    x.(category := None)
  }

  /** The category names in the order they are first met. */
  function CategoryNames(items: seq<ItemData>): seq<string> {
    if items == [] then []
    else
      var names := CategoryNames(items[..|items| - 1]);
      var c := CategoryOf(items[|items| - 1]);
      if c in names then names else names + [c]
  }

  /** The items of one category, stripped, in input order. */
  function ItemsOfCategory(items: seq<ItemData>, c: string): seq<ItemData> {
    if items == [] then []
    else
      var x := items[|items| - 1];
      ItemsOfCategory(items[..|items| - 1], c) + (if CategoryOf(x) == c then [Stripped(x)] else [])
  }

  /** What `_group_items_by_category` returns. */
  function Grouped(items: seq<ItemData>): seq<CategoryData> {
    var names := CategoryNames(items);
    seq(|names|, j requires 0 <= j < |names| => CategoryData(names[j], ItemsOfCategory(items, names[j])))
  }

  /** Some item carries category `c`. */
  predicate NamedBy(items: seq<ItemData>, c: string) {
    exists i :: 0 <= i < |items| && CategoryOf(items[i]) == c
  }

  /** The category names are exactly those the items carry. */
  lemma {:induction false} CategoryNamesMembers(items: seq<ItemData>)
    ensures forall c :: c in CategoryNames(items) <==> NamedBy(items, c)
    decreases |items|
  {
    if items != [] {
      var init := items[..|items| - 1];
      CategoryNamesMembers(init);
      forall c ensures c in CategoryNames(items) <==> NamedBy(items, c) {
        if NamedBy(init, c) {
          var i :| 0 <= i < |init| && CategoryOf(init[i]) == c;
          assert items[i] == init[i];
        }
        if NamedBy(items, c) {
          var i :| 0 <= i < |items| && CategoryOf(items[i]) == c;
          if i < |init| {
            assert init[i] == items[i];
          }
        }
      }
    }
  }

  /** No category name is listed twice. */
  lemma {:induction false} CategoryNamesDistinct(items: seq<ItemData>)
    ensures Distinct(CategoryNames(items))
    decreases |items|
  {
    if items != [] {
      CategoryNamesDistinct(items[..|items| - 1]);
    }
  }

  /** A name listed before another is carried by some item before any
      item of the later one. */
  predicate FirstSeenOrder(items: seq<ItemData>, names: seq<string>) {
    forall a, b, i :: 0 <= a < b < |names| && 0 <= i < |items| && CategoryOf(items[i]) == names[b] ==>
      NamedBy(items[..i], names[a])
  }

  /** The category names follow first appearance. */
  lemma {:induction false} CategoryNamesOrder(items: seq<ItemData>)
    ensures FirstSeenOrder(items, CategoryNames(items))
    decreases |items|
  {
    if items != [] {
      var init := items[..|items| - 1];
      CategoryNamesOrder(init);
      CategoryNamesMembers(init);
      var names := CategoryNames(items);
      var prev := CategoryNames(init);
      forall a, b, i | 0 <= a < b < |names| && 0 <= i < |items| && CategoryOf(items[i]) == names[b]
        ensures NamedBy(items[..i], names[a])
      {
        assert a < |prev| && names[a] == prev[a];
        if i < |init| {
          assert CategoryOf(init[i]) == names[b];
          assert NamedBy(init, names[b]);
          assert names[b] in prev;
          assert b < |prev|;
          assert names[b] == prev[b];
          assert FirstSeenOrder(init, prev);
          assert 0 <= a < b < |prev| && 0 <= i < |init| && CategoryOf(init[i]) == prev[b];
          assert NamedBy(init[..i], prev[a]);
          assert items[..i] == init[..i];
        } else {
          assert items[..i] == init;
          assert prev[a] in prev;
          assert NamedBy(init, prev[a]);
        }
      }
    }
  }

  /** A category no item names holds no items. */
  lemma {:induction false} ItemsOfUnnamedCategory(items: seq<ItemData>, c: string)
    requires c !in CategoryNames(items)
    ensures ItemsOfCategory(items, c) == []
    decreases |items|
  {
    if items != [] {
      ItemsOfUnnamedCategory(items[..|items| - 1], c);
    }
  }

  /** Each group holds its items stripped of the category key, and every
      input item appears, stripped, in the group of its category. */
  lemma {:induction false} ItemsOfCategoryFacts(items: seq<ItemData>, c: string)
    ensures forall y :: y in ItemsOfCategory(items, c) ==> y.category.None?
    ensures forall i :: 0 <= i < |items| && CategoryOf(items[i]) == c ==> Stripped(items[i]) in ItemsOfCategory(items, c)
    ensures |ItemsOfCategory(items, c)| <= |items|
    decreases |items|
  {
    if items != [] {
      var init := items[..|items| - 1];
      ItemsOfCategoryFacts(init, c);
      forall i | 0 <= i < |items| - 1 && CategoryOf(items[i]) == c ensures Stripped(items[i]) in ItemsOfCategory(items, c) {
        assert items[i] == init[i];
      }
    }
  }

  /** `_group_items_by_category`: items without a category land in
      "未分類"; categories follow first appearance; each keeps its items in
      input order, stripped of the category key. */
  lemma GroupedFacts(items: seq<ItemData>)
    ensures var g := Grouped(items);
      (forall j, k :: 0 <= j < k < |g| ==> g[j].name != g[k].name)
      && (forall i :: 0 <= i < |items| && items[i].category.None? ==>
            exists j :: 0 <= j < |g| && g[j].name == Uncategorized && Stripped(items[i]) in g[j].items)
      && (forall i :: 0 <= i < |items| ==>
            exists j :: 0 <= j < |g| && g[j].name == CategoryOf(items[i]) && Stripped(items[i]) in g[j].items)
      && (forall j, y :: 0 <= j < |g| && y in g[j].items ==> y.category.None?)
      && FirstSeenOrder(items, seq(|g|, j requires 0 <= j < |g| => g[j].name))
  {
    var g := Grouped(items);
    var names := CategoryNames(items);
    CategoryNamesMembers(items);
    CategoryNamesDistinct(items);
    CategoryNamesOrder(items);
    forall i | 0 <= i < |items|
      ensures exists j :: 0 <= j < |g| && g[j].name == CategoryOf(items[i]) && Stripped(items[i]) in g[j].items
    {
      var c := CategoryOf(items[i]);
      assert NamedBy(items, c);
      var j :| 0 <= j < |names| && names[j] == c;
      ItemsOfCategoryFacts(items, c);
      assert g[j].name == c && Stripped(items[i]) in g[j].items;
    }
    assert seq(|g|, j requires 0 <= j < |g| => g[j].name) == names;
    forall j, y | 0 <= j < |g| && y in g[j].items ensures y.category.None? {
      ItemsOfCategoryFacts(items, names[j]);
    }
  }

  /** One item of the grouping loop: its category is named if new, and
      the item joins that category's list. */
  lemma GroupStep(items: seq<ItemData>, i: int, names: seq<string>, lists: map<string, seq<ItemData>>)
    requires 0 <= i < |items|
    requires names == CategoryNames(items[..i])
    requires forall c :: c in lists <==> c in names
    requires forall c :: c in lists ==> lists[c] == ItemsOfCategory(items[..i], c)
    ensures var c := CategoryOf(items[i]);
      var names' := if c in lists then names else names + [c];
      var lists' := lists[c := (if c in lists then lists[c] else []) + [Stripped(items[i])]];
      names' == CategoryNames(items[..i + 1])
      && (forall d :: d in lists' <==> d in names')
      && (forall d :: d in lists' ==> lists'[d] == ItemsOfCategory(items[..i + 1], d))
  {
    assert items[..i + 1][..i] == items[..i];
    var c := CategoryOf(items[i]);
    if c !in lists {
      ItemsOfUnnamedCategory(items[..i], c);
    }
  }

  /** The loop of `_group_items_by_category` over a dictionary of lists. */
  method GroupItemsByCategory(items: seq<ItemData>) returns (r: seq<CategoryData>)
    ensures r == Grouped(items)
  {
    var names: seq<string> := [];
    var lists: map<string, seq<ItemData>> := map[];
    var i := 0;
    while i < |items|
      invariant 0 <= i <= |items|
      invariant names == CategoryNames(items[..i])
      invariant forall c :: c in lists <==> c in names
      invariant forall c :: c in lists ==> lists[c] == ItemsOfCategory(items[..i], c)
    {
      var x := items[i];
      var c := CategoryOf(x);
      GroupStep(items, i, names, lists);
      var prior := if c in lists then lists[c] else [];
      if c !in lists {
        names := names + [c];
      }
      lists := lists[c := prior + [Stripped(x)]];
      i := i + 1;
    }
    assert items[..i] == items;
    assert forall j :: 0 <= j < |names| ==> lists[names[j]] == ItemsOfCategory(items, names[j]);
    r := seq(|names|, j requires 0 <= j < |names| => CategoryData(names[j], lists[names[j]]));
  }

  // ---------------------------------------------------------------
  // save_menu_diff

  /** The removal loop: each name, normalised, deleted when present. */
  function RemoveAll(d: Dict, names: seq<string>): (r: Dict)
    requires ValidDict(d)
    ensures ValidDict(r)
  {
    if names == [] then d else Remove(RemoveAll(d, names[..|names| - 1]), Normalize(names[|names| - 1]))
  }

  /** The apply loop: each item stored under its normalised name. */
  function PutAll(d: Dict, items: seq<ItemData>): (r: Dict)
    requires ValidDict(d)
    ensures ValidDict(r)
  {
    if items == [] then d
    else
      var x := items[|items| - 1];
      Put(PutAll(d, items[..|items| - 1]), Key(x), x)
  }

  /** The merged index of `save_menu_diff`. */
  function Merged(existing: MenuData, applyItems: seq<ItemData>, removeNames: seq<string>): Dict {
    PutAll(RemoveAll(MenuIndex(existing), removeNames), applyItems)
  }

  /** The categories `save_menu_diff` hands to `save_menu`: with no
      stored menu, the applied items alone. */
  function DiffCategories(existing: Option<MenuData>, applyItems: seq<ItemData>, removeNames: seq<string>)
    : seq<CategoryData>
  {
    if existing.None? then Grouped(applyItems)
    else Grouped(Values(Merged(existing.value, applyItems, removeNames)))
  }

  lemma {:induction false} RemoveAllLookup(d: Dict, names: seq<string>, k: string)
    requires ValidDict(d)
    ensures Lookup(RemoveAll(d, names), k) ==
              if exists i :: 0 <= i < |names| && Normalize(names[i]) == k then None else Lookup(d, k)
    decreases |names|
  {
    if names != [] {
      var init := names[..|names| - 1];
      var n := Normalize(names[|names| - 1]);
      RemoveAllLookup(d, init, k);
      var r0 := RemoveAll(d, init);
      assert Lookup(RemoveAll(d, names), k) == if k == n then None else Lookup(r0, k);
      if exists i :: 0 <= i < |init| && Normalize(init[i]) == k {
        var i :| 0 <= i < |init| && Normalize(init[i]) == k;
        assert names[i] == init[i];
      } else if k != n {
        forall i | 0 <= i < |names| ensures Normalize(names[i]) != k {
          if i < |init| {
            assert names[i] == init[i];
          }
        }
      }
    }
  }

  lemma {:induction false} PutAllLookup(d: Dict, items: seq<ItemData>, k: string)
    requires ValidDict(d)
    ensures Lookup(PutAll(d, items), k) == if LastWithKey(items, k).Some? then LastWithKey(items, k) else Lookup(d, k)
    decreases |items|
  {
    if items != [] {
      PutAllLookup(d, items[..|items| - 1], k);
    }
  }

  /** `save_menu_diff` applies removals before applies: a name that is
      applied ends with the last applied item of that name even if it is
      also removed; a removed name not applied is gone; any other name
      keeps its stored item. */
  lemma MergedLookup(existing: MenuData, applyItems: seq<ItemData>, removeNames: seq<string>, k: string)
    ensures Lookup(Merged(existing, applyItems, removeNames), k) ==
      if LastWithKey(applyItems, k).Some? then LastWithKey(applyItems, k)
      else if exists i :: 0 <= i < |removeNames| && Normalize(removeNames[i]) == k then None
      else Lookup(MenuIndex(existing), k)
  {
    var idx := MenuIndex(existing);
    RemoveAllLookup(idx, removeNames, k);
    PutAllLookup(RemoveAll(idx, removeNames), applyItems, k);
  }

  /** The dictionary loops of `save_menu_diff`. */
  method MergeItems(existing: MenuData, applyItems: seq<ItemData>, removeNames: seq<string>) returns (d: Dict)
    ensures d == Merged(existing, applyItems, removeNames)
  {
    d := BuildIndex(existing);
    d := RemoveNames(d, removeNames);
    d := PutItems(d, applyItems);
  }

  /** The removal loop of `save_menu_diff`. */
  method RemoveNames(d0: Dict, removeNames: seq<string>) returns (d: Dict)
    requires ValidDict(d0)
    ensures ValidDict(d) && d == RemoveAll(d0, removeNames)
  {
    d := d0;
    var i := 0;
    while i < |removeNames|
      invariant 0 <= i <= |removeNames|
      invariant ValidDict(d) && d == RemoveAll(d0, removeNames[..i])
    {
      var k := Normalize(removeNames[i]);
      if k in d.vals {
        d := Remove(d, k);
      }
      assert removeNames[..i + 1][..i] == removeNames[..i];
      i := i + 1;
    }
    assert removeNames[..i] == removeNames;
  }

  /** The apply loop of `save_menu_diff`. */
  method PutItems(d0: Dict, applyItems: seq<ItemData>) returns (d: Dict)
    requires ValidDict(d0)
    ensures d == PutAll(d0, applyItems)
  {
    d := d0;
    var j := 0;
    while j < |applyItems|
      invariant 0 <= j <= |applyItems|
      invariant ValidDict(d) && d == PutAll(d0, applyItems[..j])
    {
      var x := applyItems[j];
      d := Put(d, Key(x), x);
      assert applyItems[..j + 1][..j] == applyItems[..j];
      j := j + 1;
    }
    assert applyItems[..j] == applyItems;
  }

  // ---------------------------------------------------------------
  // save_menu

  /** The row `save_menu` creates for the `k`-th item of a category:
      available, ordered by its position. */
  function NewItem(x: ItemData, categoryId: Id, id: Id, k: nat): MenuItem {
    MenuItem(id, categoryId, x.name, x.price, x.description, true, x.variants, x.promo, k)
  }

  /** The rows for one category's items, numbered from `firstId`. */
  function NewItems(xs: seq<ItemData>, categoryId: Id, firstId: nat): (r: seq<MenuItem>)
    ensures |r| == |xs|
  {
    seq(|xs|, k requires 0 <= k < |xs| => NewItem(xs[k], categoryId, firstId + k, k))
  }

  /** The rows `save_menu` creates, and the next free key. */
  datatype Layout = Layout(categories: seq<Category>, items: seq<MenuItem>, next: nat)

  /** The rows of `save_menu`'s loops: each category takes the next key,
      then its items take the keys after it. */
  function LayoutOf(cats: seq<CategoryData>, menuId: Id, firstId: nat): Layout
    decreases |cats|
  {
    if cats == [] then Layout([], [], firstId)
    else
      var l := LayoutOf(cats[..|cats| - 1], menuId, firstId);
      var c := cats[|cats| - 1];
      Layout(l.categories + [Category(l.next, menuId, c.name, |cats| - 1)],
             l.items + NewItems(c.items, l.next, l.next + 1),
             l.next + 1 + |c.items|)
  }

  /** The categories of the layout keep the input's names and order, all
      in the given menu; every created item is available; all keys are
      fresh (between `firstId` and `next`) and category keys increase. */
  lemma {:induction false} LayoutFacts(cats: seq<CategoryData>, menuId: Id, firstId: nat)
    ensures var l := LayoutOf(cats, menuId, firstId);
      firstId <= l.next
      && |l.categories| == |cats|
      && (forall i :: 0 <= i < |cats| ==>
            l.categories[i].menuId == menuId && l.categories[i].name == cats[i].name && l.categories[i].sortOrder == i
            && firstId <= l.categories[i].id < l.next)
      && (forall i, j :: 0 <= i < j < |cats| ==> l.categories[i].id < l.categories[j].id)
      && (forall k :: 0 <= k < |l.items| ==>
            l.items[k].isAvailable && firstId <= l.items[k].categoryId < l.next && firstId <= l.items[k].id < l.next)
  {
    LayoutCategories(cats, menuId, firstId);
    LayoutItems(cats, menuId, firstId);
  }

  lemma {:induction false} LayoutCategories(cats: seq<CategoryData>, menuId: Id, firstId: nat)
    ensures var l := LayoutOf(cats, menuId, firstId);
      firstId <= l.next
      && |l.categories| == |cats|
      && (forall i :: 0 <= i < |cats| ==>
            l.categories[i].menuId == menuId && l.categories[i].name == cats[i].name && l.categories[i].sortOrder == i
            && firstId <= l.categories[i].id < l.next)
      && (forall i, j :: 0 <= i < j < |cats| ==> l.categories[i].id < l.categories[j].id)
    decreases |cats|
  {
    if cats != [] {
      var init := cats[..|cats| - 1];
      LayoutCategories(init, menuId, firstId);
      var prev := LayoutOf(init, menuId, firstId);
      var l := LayoutOf(cats, menuId, firstId);
      assert l.categories == prev.categories + [Category(prev.next, menuId, cats[|cats| - 1].name, |cats| - 1)];
      assert forall i :: 0 <= i < |init| ==> cats[i] == init[i];
    }
  }

  lemma {:induction false} LayoutItems(cats: seq<CategoryData>, menuId: Id, firstId: nat)
    ensures var l := LayoutOf(cats, menuId, firstId);
      firstId <= l.next
      && (forall k :: 0 <= k < |l.items| ==>
            l.items[k].isAvailable && firstId <= l.items[k].categoryId < l.next && firstId <= l.items[k].id < l.next)
    decreases |cats|
  {
    if cats != [] {
      var init := cats[..|cats| - 1];
      var c := cats[|cats| - 1];
      LayoutItems(init, menuId, firstId);
      var prev := LayoutOf(init, menuId, firstId);
      var added := NewItems(c.items, prev.next, prev.next + 1);
      var l := LayoutOf(cats, menuId, firstId);
      assert l.items == prev.items + added;
      assert forall k :: 0 <= k < |added| ==>
        added[k].isAvailable && added[k].categoryId == prev.next && added[k].id == prev.next + 1 + k;
    }
  }

  /** A row read back as the data it was made from. */
  function AsData(it: MenuItem): ItemData {
    ItemData(it.name, it.price, it.description, it.variants, it.promo, None)
  }

  /** The items stored under one category, read back in row order. */
  function ReadBack(items: seq<MenuItem>, categoryId: Id): seq<ItemData> {
    if items == [] then []
    else
      var it := items[|items| - 1];
      ReadBack(items[..|items| - 1], categoryId) + (if it.categoryId == categoryId then [AsData(it)] else [])
  }

  function StrippedAll(xs: seq<ItemData>): (r: seq<ItemData>)
    ensures |r| == |xs| && forall k :: 0 <= k < |xs| ==> r[k] == Stripped(xs[k])
  {
    seq(|xs|, k requires 0 <= k < |xs| => Stripped(xs[k]))
  }

  lemma {:induction false} ReadBackAppend(a: seq<MenuItem>, b: seq<MenuItem>, categoryId: Id)
    ensures ReadBack(a + b, categoryId) == ReadBack(a, categoryId) + ReadBack(b, categoryId)
    decreases |b|
  {
    if b == [] {
      assert a + b == a;
    } else {
      assert (a + b)[..|a + b| - 1] == a + b[..|b| - 1];
      ReadBackAppend(a, b[..|b| - 1], categoryId);
    }
  }

  lemma {:induction false} ReadBackOther(items: seq<MenuItem>, categoryId: Id)
    requires forall k :: 0 <= k < |items| ==> items[k].categoryId != categoryId
    ensures ReadBack(items, categoryId) == []
    decreases |items|
  {
    if items != [] {
      ReadBackOther(items[..|items| - 1], categoryId);
    }
  }

  /** A category's created rows read back as its items without the
      category key. */
  lemma {:induction false} ReadBackNew(xs: seq<ItemData>, categoryId: Id, firstId: nat)
    ensures ReadBack(NewItems(xs, categoryId, firstId), categoryId) == StrippedAll(xs)
    decreases |xs|
  {
    if xs != [] {
      var init := xs[..|xs| - 1];
      assert NewItems(xs, categoryId, firstId)[..|xs| - 1] == NewItems(init, categoryId, firstId);
      ReadBackNew(init, categoryId, firstId);
      assert StrippedAll(xs) == StrippedAll(init) + [Stripped(xs[|xs| - 1])];
    }
  }

  /** Round trip of `save_menu`: reading back the items stored under the
      `i`-th created category gives that category's items, in order. */
  lemma {:induction false} LayoutReadBack(cats: seq<CategoryData>, menuId: Id, firstId: nat)
    ensures var l := LayoutOf(cats, menuId, firstId);
      |l.categories| == |cats|
      && forall i :: 0 <= i < |cats| ==> ReadBack(l.items, l.categories[i].id) == StrippedAll(cats[i].items)
    decreases |cats|
  {
    LayoutSize(cats, menuId, firstId);
    if cats != [] {
      var init := cats[..|cats| - 1];
      var l := LayoutOf(cats, menuId, firstId);
      LayoutReadBack(init, menuId, firstId);
      forall i | 0 <= i < |cats| ensures ReadBack(l.items, l.categories[i].id) == StrippedAll(cats[i].items) {
        ReadBackAt(cats, menuId, firstId, i);
      }
    }
  }

  lemma {:induction false} LayoutSize(cats: seq<CategoryData>, menuId: Id, firstId: nat)
    ensures |LayoutOf(cats, menuId, firstId).categories| == |cats|
    decreases |cats|
  {
    if cats != [] {
      LayoutSize(cats[..|cats| - 1], menuId, firstId);
    }
  }

  /** Every key a layout uses is below its next free key. */
  lemma LayoutBelow(cats: seq<CategoryData>, menuId: Id, firstId: nat)
    ensures var l := LayoutOf(cats, menuId, firstId);
      (forall j :: 0 <= j < |l.categories| ==> l.categories[j].id < l.next)
      && (forall k :: 0 <= k < |l.items| ==> l.items[k].categoryId < l.next)
  {
    LayoutFacts(cats, menuId, firstId);
  }

  /** One step of the round trip: the `i`-th category, given the round
      trip for all categories before the last. */
  lemma ReadBackAt(cats: seq<CategoryData>, menuId: Id, firstId: nat, i: int)
    requires 0 <= i < |cats|
    requires var init := cats[..|cats| - 1];
      var prev := LayoutOf(init, menuId, firstId);
      |prev.categories| == |init|
      && forall j :: 0 <= j < |init| ==> ReadBack(prev.items, prev.categories[j].id) == StrippedAll(init[j].items)
    ensures |LayoutOf(cats, menuId, firstId).categories| == |cats|
    ensures var l := LayoutOf(cats, menuId, firstId);
      ReadBack(l.items, l.categories[i].id) == StrippedAll(cats[i].items)
  {
    var init := cats[..|cats| - 1];
    var c := cats[|cats| - 1];
    var prev := LayoutOf(init, menuId, firstId);
    var added := NewItems(c.items, prev.next, prev.next + 1);
    var l := LayoutOf(cats, menuId, firstId);
    assert l.items == prev.items + added;
    assert l.categories == prev.categories + [Category(prev.next, menuId, c.name, |cats| - 1)];
    LayoutBelow(init, menuId, firstId);
    if i < |init| {
      assert l.categories[i] == prev.categories[i];
      ReadBackEarlier(prev.items, added, prev.categories[i].id, prev.next);
      assert cats[i] == init[i];
    } else {
      assert l.categories[i].id == prev.next;
      ReadBackLatest(prev.items, c.items, prev.next);
    }
  }

  lemma ReadBackEarlier(before: seq<MenuItem>, added: seq<MenuItem>, cid: Id, next: nat)
    requires cid < next
    requires forall k :: 0 <= k < |added| ==> added[k].categoryId >= next
    ensures ReadBack(before + added, cid) == ReadBack(before, cid)
  {
    ReadBackAppend(before, added, cid);
    ReadBackOther(added, cid);
  }

  lemma ReadBackLatest(before: seq<MenuItem>, xs: seq<ItemData>, next: nat)
    requires forall k :: 0 <= k < |before| ==> before[k].categoryId < next
    ensures ReadBack(before + NewItems(xs, next, next + 1), next) == StrippedAll(xs)
  {
    ReadBackAppend(before, NewItems(xs, next, next + 1), next);
    ReadBackOther(before, next);
    ReadBackNew(xs, next, next + 1);
  }

  /** The categories of one menu, and those of every other menu. */
  function CategoriesOfMenu(categories: seq<Category>, menuId: Id): seq<Category> {
    Filter(categories, (c: Category) => c.menuId == menuId)
  }

  function OtherCategories(categories: seq<Category>, menuId: Id): seq<Category> {
    Filter(categories, (c: Category) => c.menuId != menuId)
  }

  /** The items left once a menu's categories are deleted with their items. */
  function OtherItems(items: seq<MenuItem>, categories: seq<Category>, menuId: Id): seq<MenuItem> {
    Filter(items, (it: MenuItem) => !StoreRepo.InMenu(categories, it, menuId))
  }

  /** `save_menu` replaces the menu's categories: afterwards they are
      exactly the created ones, and no other menu's category changes. */
  lemma SaveReplacesCategories(categories: seq<Category>, cats: seq<CategoryData>, menuId: Id, firstId: nat)
    ensures var l := LayoutOf(cats, menuId, firstId);
      var after := OtherCategories(categories, menuId) + l.categories;
      CategoriesOfMenu(after, menuId) == l.categories
      && forall m :: m != menuId ==> CategoriesOfMenu(after, m) == CategoriesOfMenu(categories, m)
  {
    var l := LayoutOf(cats, menuId, firstId);
    var kept := OtherCategories(categories, menuId);
    LayoutFacts(cats, menuId, firstId);
    FilterAppend(kept, l.categories, (c: Category) => c.menuId == menuId);
    FilterKeepsNone(kept, (c: Category) => c.menuId == menuId);
    FilterKeepsAll(l.categories, (c: Category) => c.menuId == menuId);
    forall m | m != menuId
      ensures CategoriesOfMenu(kept + l.categories, m) == CategoriesOfMenu(categories, m)
    {
      FilterAppend(kept, l.categories, (c: Category) => c.menuId == m);
      FilterKeepsNone(l.categories, (c: Category) => c.menuId == m);
      FilterNarrow(categories, (c: Category) => c.menuId != menuId, (c: Category) => c.menuId == m);
    }
  }

  /** The item loop of one category. */
  method CreateItems(db: Database, categoryId: Id, xs: seq<ItemData>)
    modifies db`menuItems, db`nextId
    ensures db.menuItems == old(db.menuItems) + NewItems(xs, categoryId, old(db.nextId))
    ensures db.nextId == old(db.nextId) + |xs|
  {
    var k := 0;
    while k < |xs|
      invariant 0 <= k <= |xs|
      invariant db.menuItems == old(db.menuItems) + NewItems(xs[..k], categoryId, old(db.nextId))
      invariant db.nextId == old(db.nextId) + k
    {
      var id := db.FreshId();
      db.menuItems := db.menuItems + [NewItem(xs[k], categoryId, id, k)];
      assert NewItems(xs[..k + 1], categoryId, old(db.nextId))
        == NewItems(xs[..k], categoryId, old(db.nextId)) + [NewItem(xs[k], categoryId, id, k)];
      k := k + 1;
    }
    assert xs[..k] == xs;
  }

  /** The category loop of `save_menu`. */
  method CreateCategories(db: Database, menuId: Id, cats: seq<CategoryData>)
    modifies db`categories, db`menuItems, db`nextId
    ensures var l := LayoutOf(cats, menuId, old(db.nextId));
      db.categories == old(db.categories) + l.categories
      && db.menuItems == old(db.menuItems) + l.items
      && db.nextId == l.next
  {
    var i := 0;
    while i < |cats|
      invariant 0 <= i <= |cats|
      invariant var l := LayoutOf(cats[..i], menuId, old(db.nextId));
        db.categories == old(db.categories) + l.categories
        && db.menuItems == old(db.menuItems) + l.items
        && db.nextId == l.next
    {
      assert cats[..i + 1][..i] == cats[..i];
      var c := cats[i];
      var id := db.FreshId();
      db.categories := db.categories + [Category(id, menuId, c.name, i)];
      CreateItems(db, id, c.items);
      i := i + 1;
    }
    assert cats[..i] == cats;
  }

  /** The key the first created row takes: after the menu's own when
      `get_or_create` had to create the menu. */
  function FirstKey(menus: seq<Menu>, storeId: Id, nextId: nat): nat {
    if StoreRepo.MenuOfStore(menus, storeId).Some? then nextId else nextId + 1
  }

  /** The whole table effect of `save_menu`. */
  twostate predicate SavedMenu<M, S>(db: Database, cache: Cache.CacheService<M, S>, storeId: Id,
                                     cats: seq<CategoryData>, menu: Menu)
    reads db, cache
  {
    var l := LayoutOf(cats, menu.id, FirstKey(old(db.menus), storeId, old(db.nextId)));
    db.menus == StoreRepo.MenuGetOrCreateRows(old(db.menus), storeId, old(db.nextId))
    && StoreRepo.MenuOfStore(db.menus, storeId) == Some(menu)
    && db.categories == OtherCategories(old(db.categories), menu.id) + l.categories
    && db.menuItems == OtherItems(old(db.menuItems), old(db.categories), menu.id) + l.items
    && db.nextId == l.next
    && cache.menus == old(cache.menus) - {storeId}
  }

  /** `save_menu`: get or create the store's menu, delete its categories
      (their items go with them), create the given categories and items
      in order, and drop the store's cached menu. */
  method SaveMenu<M, S>(db: Database, cache: Cache.CacheService<M, S>, storeId: Id, cats: seq<CategoryData>)
    returns (menu: Menu)
    modifies db`menus, db`nextId, db`categories, db`menuItems, cache`menus
    ensures SavedMenu(db, cache, storeId, cats, menu)
  {
    menu := StoreRepo.MenuGetOrCreate(db, storeId);
    db.menuItems := OtherItems(db.menuItems, db.categories, menu.id);
    db.categories := OtherCategories(db.categories, menu.id);
    CreateCategories(db, menu.id, cats);
    cache.ClearMenu(storeId);
  }

  // ---------------------------------------------------------------
  // save_menu_diff

  /** `save_menu_diff`, given what `get_store_menu` returned for the
      store: with no stored menu the applied items alone are saved;
      otherwise the merged index, grouped by category. */
  method SaveMenuDiff<M, S>(db: Database, cache: Cache.CacheService<M, S>, storeId: Id,
                            existing: Option<MenuData>, applyItems: seq<ItemData>, removeNames: seq<string>)
    returns (menu: Menu)
    modifies db`menus, db`nextId, db`categories, db`menuItems, cache`menus
    ensures SavedMenu(db, cache, storeId, DiffCategories(existing, applyItems, removeNames), menu)
  {
    var cats;
    if existing.None? {
      cats := GroupItemsByCategory(applyItems);
    } else {
      var d := MergeItems(existing.value, applyItems, removeNames);
      cats := GroupItemsByCategory(Values(d));
    }
    menu := SaveMenu(db, cache, storeId, cats);
  }

  /** What `save_menu_diff` stores for a name, read through the merged
      index: a name both removed and applied keeps the applied item; with
      no stored menu only the applied items are saved. */
  lemma DiffKeepsApplied(existing: Option<MenuData>, applyItems: seq<ItemData>, removeNames: seq<string>, x: ItemData)
    requires x in applyItems
    ensures existing.Some? ==>
              var r := Lookup(Merged(existing.value, applyItems, removeNames), Key(x));
              r.Some? && r.value in applyItems && Key(r.value) == Key(x)
    ensures existing.None? ==> DiffCategories(existing, applyItems, removeNames) == Grouped(applyItems)
  {
    if existing.Some? {
      MergedLookup(existing.value, applyItems, removeNames, Key(x));
      var i :| 0 <= i < |applyItems| && applyItems[i] == x;
    }
  }
}
