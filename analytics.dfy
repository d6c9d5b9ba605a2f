/** The two admin reports of index.js: the revenue total of `/admin-stats`
    and the per-category aggregation pipeline of `/order-stats`, both as
    folds over the `payments` and `menu` collections. */
module Analytics {
  import opened Wrappers
  import opened Records

  // ---------------------------------------------------------------- revenue

  /** `$sum: '$price'` over a group of payments. */
  function SumPrices(payments: seq<Payment>): (total: int)
    ensures (forall k :: 0 <= k < |payments| ==> payments[k].price >= 0) ==> total >= 0
  {
    if payments == [] then 0
    else
      assert forall k :: 0 < k < |payments| ==> payments[1..][k - 1] == payments[k];
      payments[0].price + SumPrices(payments[1..])
  }

  /** The `$group` stage with `_id: null`: one group holding every payment,
      and no group at all when there are no payments. */
  function RevenueGroups(payments: seq<Payment>): (groups: seq<int>)
    ensures |groups| == if payments == [] then 0 else 1
  {
    if payments == [] then [] else [SumPrices(payments)]
  }

  /** `result.length > 0 ? result[0].totalRevenue : 0`. */
  function Revenue(payments: seq<Payment>): (r: int)
    ensures payments == [] ==> r == 0
  {
    var groups := RevenueGroups(payments);
    if |groups| > 0 then groups[0] else 0
  }

  /** `payments.reduce((acc, p) => acc + p.price, acc)`, the left fold:
      it ends at the start value plus the `$sum` of the prices. */
  function ReducePrices(acc: int, payments: seq<Payment>): (r: int)
    ensures r == acc + SumPrices(payments)
    decreases payments
  {
    if payments == [] then acc else ReducePrices(acc + payments[0].price, payments[1..])
  }

  /** The aggregation gives the same revenue as reducing over every payment
      from 0, including 0 for an empty collection. */
  lemma RevenueIsReduce(payments: seq<Payment>)
    ensures Revenue(payments) == ReducePrices(0, payments)
  {
  }

  lemma {:induction false} SumPricesAppend(a: seq<Payment>, b: seq<Payment>)
    ensures SumPrices(a + b) == SumPrices(a) + SumPrices(b)
  {
    if a != [] {
      SumPricesAppend(a[1..], b);
      assert (a + b)[1..] == a[1..] + b;
    } else {
      assert a + b == b;
    }
  }

  /** Revenue is additive over any split of the payment collection. */
  lemma RevenueAppend(a: seq<Payment>, b: seq<Payment>)
    ensures Revenue(a + b) == Revenue(a) + Revenue(b)
  {
    SumPricesAppend(a, b);
  }

  // ----------------------------------------------------------- order stats

  /** One output document of `/order-stats`. */
  datatype CategoryStat = CategoryStat(category: string, quantity: nat, revenue: int)

  /** `$unwind: '$menuItemIds'` followed by the identity `$convert`: one row
      per entry of each payment's `menuItemIds`, in collection order. Only the
      id reaches the later stages. */
  function Unwind(payments: seq<Payment>): (ids: seq<Id>)
    ensures forall i, j :: 0 <= i < |payments| && 0 <= j < |payments[i].menuItemIds| ==>
      payments[i].menuItemIds[j] in ids
    ensures forall id :: id in ids ==> exists i :: 0 <= i < |payments| && id in payments[i].menuItemIds
  {
    if payments == [] then []
    else
      var ids := payments[0].menuItemIds + Unwind(payments[1..]);
      assert forall i :: 0 < i < |payments| ==> payments[1..][i - 1] == payments[i];
      ids
  }

  /** Each payment adds exactly its own `menuItemIds` rows. */
  lemma {:induction false} UnwindAppend(a: seq<Payment>, b: seq<Payment>)
    ensures Unwind(a + b) == Unwind(a) + Unwind(b)
  {
    if a == [] {
      assert a + b == b;
    } else {
      UnwindAppend(a[1..], b);
      assert (a + b)[1..] == a[1..] + b;
      calc {
        Unwind(a + b);
        a[0].menuItemIds + Unwind(a[1..] + b);
        a[0].menuItemIds + (Unwind(a[1..]) + Unwind(b));
        (a[0].menuItemIds + Unwind(a[1..])) + Unwind(b);
      }
    }
  }

  /** `$lookup` from `menu` on `_id`: every menu document with this id. */
  function Lookup(menu: seq<MenuItem>, id: Id): (found: seq<MenuItem>)
    ensures forall k :: 0 <= k < |found| ==> found[k] in menu && found[k].id == id
  {
    if menu == [] then []
    else if menu[0].id == id then [menu[0]] + Lookup(menu[1..], id)
    else Lookup(menu[1..], id)
  }

  /** `$lookup` then `$unwind: '$menuItems'`: each row becomes one row per
      matched menu document; a row with no match is dropped. */
  function Join(ids: seq<Id>, menu: seq<MenuItem>): (rows: seq<MenuItem>)
    ensures forall k :: 0 <= k < |rows| ==> rows[k] in menu
  {
    if ids == [] then [] else Lookup(menu, ids[0]) + Join(ids[1..], menu)
  }

  /** The group record for `item.category` after counting one more row. */
  function AddRow(stats: seq<CategoryStat>, item: MenuItem): (r: seq<CategoryStat>)
    ensures forall c :: HasCategory(r, c) <==> HasCategory(stats, c) || c == item.category
    ensures forall c :: QuantityOf(r, c) == QuantityOf(stats, c) + (if c == item.category then 1 else 0)
    ensures forall c :: RevenueOf(r, c) == RevenueOf(stats, c) + (if c == item.category then item.price else 0)
    ensures Distinct(stats) ==> Distinct(r)
    ensures AllCounted(stats) ==> AllCounted(r)
  {
    if stats == [] then [CategoryStat(item.category, 1, item.price)]
    else if stats[0].category == item.category then
      [stats[0].(quantity := stats[0].quantity + 1, revenue := stats[0].revenue + item.price)] + stats[1..]
    else
      var r := [stats[0]] + AddRow(stats[1..], item);
      assert r[1..] == AddRow(stats[1..], item);
      r
  }

  /** `$group` by `menuItems.category` with `quantity: {$sum: 1}` and
      `revenue: {$sum: '$menuItems.price'}`, then `$project`. */
  function GroupByCategory(rows: seq<MenuItem>): (stats: seq<CategoryStat>)
    ensures Distinct(stats) && AllCounted(stats)
    ensures forall c :: HasCategory(stats, c) <==> RowCount(rows, c) > 0
    ensures forall c :: QuantityOf(stats, c) == RowCount(rows, c)
    ensures forall c :: RevenueOf(stats, c) == RowRevenue(rows, c)
  {
    if rows == [] then [] else AddRow(GroupByCategory(rows[1..]), rows[0])
  }

  /** The whole `/order-stats` pipeline. */
  function OrderStats(payments: seq<Payment>, menu: seq<MenuItem>): (stats: seq<CategoryStat>)
    ensures Distinct(stats) && AllCounted(stats)
    ensures forall c :: HasCategory(stats, c) ==> exists i :: 0 <= i < |menu| && menu[i].category == c
  {
    var rows := Join(Unwind(payments), menu);
    assert forall k :: 0 <= k < |rows| ==> rows[k] in menu;
    GroupByCategory(rows)
  }

  // ------------------------------------------------- views of a stats list

  predicate HasCategory(stats: seq<CategoryStat>, c: string)
  {
    stats != [] && (stats[0].category == c || HasCategory(stats[1..], c))
  }

  /** The quantity reported for `c`, or 0 when `c` is not reported. */
  function QuantityOf(stats: seq<CategoryStat>, c: string): nat
  {
    if stats == [] then 0
    else if stats[0].category == c then stats[0].quantity
    else QuantityOf(stats[1..], c)
  }

  /** The revenue reported for `c`, or 0 when `c` is not reported. */
  function RevenueOf(stats: seq<CategoryStat>, c: string): int
  {
    if stats == [] then 0
    else if stats[0].category == c then stats[0].revenue
    else RevenueOf(stats[1..], c)
  }

  /** Each category is reported at most once. */
  predicate Distinct(stats: seq<CategoryStat>)
  {
    stats == [] || (!HasCategory(stats[1..], stats[0].category) && Distinct(stats[1..]))
  }

  /** Every reported category counted at least one row (no zero fill). */
  predicate AllCounted(stats: seq<CategoryStat>)
  {
    stats == [] || (stats[0].quantity > 0 && AllCounted(stats[1..]))
  }

  // ----------------------------------------------------- reference counts

  /** Number of joined rows in category `c`. */
  function RowCount(rows: seq<MenuItem>, c: string): (n: nat)
    ensures n > 0 <==> exists k :: 0 <= k < |rows| && rows[k].category == c
  {
    if rows == [] then 0
    else
      assert forall k :: 0 < k < |rows| ==> rows[1..][k - 1] == rows[k];
      (if rows[0].category == c then 1 else 0) + RowCount(rows[1..], c)
  }

  /** Sum of the joined menu items' prices in category `c`. */
  function RowRevenue(rows: seq<MenuItem>, c: string): int
  {
    if rows == [] then 0 else (if rows[0].category == c then rows[0].price else 0) + RowRevenue(rows[1..], c)
  }

  /** The first menu document with this id. */
  function FindMenuItem(menu: seq<MenuItem>, id: Id): (r: Option<MenuItem>)
    ensures r.Some? ==> r.value in menu && r.value.id == id
    ensures r.None? <==> forall k :: 0 <= k < |menu| ==> menu[k].id != id
  {
    if menu == [] then None
    else if menu[0].id == id then Some(menu[0])
    else
      var r := FindMenuItem(menu[1..], id);
      assert forall k :: 0 < k < |menu| ==> menu[k] == menu[1..][k - 1];
      r
  }

  /** Number of ordered ids whose menu item is in category `c`: the
      specification of `quantity`, stated on ids rather than joined rows. */
  function CategoryQuantity(ids: seq<Id>, menu: seq<MenuItem>, c: string): nat
  {
    if ids == [] then 0
    else
      (match FindMenuItem(menu, ids[0])
       case Some(m) => if m.category == c then 1 else 0
       case None => 0)
      + CategoryQuantity(ids[1..], menu, c)
  }

  /** Sum of the menu prices of ordered ids in category `c`: the
      specification of `revenue`. */
  function CategoryRevenue(ids: seq<Id>, menu: seq<MenuItem>, c: string): int
  {
    if ids == [] then 0
    else
      (match FindMenuItem(menu, ids[0])
       case Some(m) => if m.category == c then m.price else 0
       case None => 0)
      + CategoryRevenue(ids[1..], menu, c)
  }

  /** Number of ordered ids that match some menu document. */
  function MatchedCount(ids: seq<Id>, menu: seq<MenuItem>): nat
  {
    if ids == [] then 0
    else (if FindMenuItem(menu, ids[0]).Some? then 1 else 0) + MatchedCount(ids[1..], menu)
  }

  // ---------------------------------------------------------------- lemmas

  lemma {:induction false} LookupMissing(menu: seq<MenuItem>, id: Id)
    requires forall k :: 0 <= k < |menu| ==> menu[k].id != id
    ensures Lookup(menu, id) == []
  {
    if menu != [] {
      LookupMissing(menu[1..], id);
    }
  }

  /** With unique `_id`s, `$lookup` finds at most the one matching document. */
  lemma {:induction false} LookupUnique(menu: seq<MenuItem>, id: Id)
    requires MenuIdsUnique(menu)
    ensures Lookup(menu, id) == match FindMenuItem(menu, id) case Some(m) => [m] case None => []
  {
    if menu != [] {
      assert MenuIdsUnique(menu[1..]);
      if menu[0].id == id {
        LookupMissing(menu[1..], id);
      } else {
        LookupUnique(menu[1..], id);
      }
    }
  }

  lemma {:induction false} RowCountAppend(a: seq<MenuItem>, b: seq<MenuItem>, c: string)
    ensures RowCount(a + b, c) == RowCount(a, c) + RowCount(b, c)
    ensures RowRevenue(a + b, c) == RowRevenue(a, c) + RowRevenue(b, c)
  {
    if a == [] {
      assert a + b == b;
    } else {
      RowCountAppend(a[1..], b, c);
      assert (a + b)[1..] == a[1..] + b;
    }
  }

  /** Joining with a unique-id menu keeps exactly the matched ids, one row
      each: unmatched ids are dropped. */
  lemma {:induction false} JoinDropsUnmatched(ids: seq<Id>, menu: seq<MenuItem>)
    requires MenuIdsUnique(menu)
    ensures |Join(ids, menu)| == MatchedCount(ids, menu)
  {
    if ids != [] {
      LookupUnique(menu, ids[0]);
      JoinDropsUnmatched(ids[1..], menu);
    }
  }

  /** Joined rows per category agree with the per-id specification. */
  lemma {:induction false} JoinCounts(ids: seq<Id>, menu: seq<MenuItem>, c: string)
    requires MenuIdsUnique(menu)
    ensures RowCount(Join(ids, menu), c) == CategoryQuantity(ids, menu, c)
    ensures RowRevenue(Join(ids, menu), c) == CategoryRevenue(ids, menu, c)
  {
    if ids != [] {
      LookupUnique(menu, ids[0]);
      JoinCounts(ids[1..], menu, c);
      RowCountAppend(Lookup(menu, ids[0]), Join(ids[1..], menu), c);
    }
  }

  /** The `/order-stats` result reports each category once; a category is
      reported iff some ordered id joins to a menu item of that category; its
      `quantity` counts those ids and its `revenue` sums their menu prices. */
  lemma OrderStatsCorrect(payments: seq<Payment>, menu: seq<MenuItem>)
    requires MenuIdsUnique(menu)
    ensures Distinct(OrderStats(payments, menu))
    ensures forall c :: HasCategory(OrderStats(payments, menu), c) <==> CategoryQuantity(Unwind(payments), menu, c) > 0
    ensures forall c :: QuantityOf(OrderStats(payments, menu), c) == CategoryQuantity(Unwind(payments), menu, c)
    ensures forall c :: RevenueOf(OrderStats(payments, menu), c) == CategoryRevenue(Unwind(payments), menu, c)
  {
    forall c
      ensures QuantityOf(OrderStats(payments, menu), c) == CategoryQuantity(Unwind(payments), menu, c)
      ensures RevenueOf(OrderStats(payments, menu), c) == CategoryRevenue(Unwind(payments), menu, c)
    {
      JoinCounts(Unwind(payments), menu, c);
    }
  }

  lemma {:induction false} CategoryCountsAppend(a: seq<Id>, b: seq<Id>, menu: seq<MenuItem>, c: string)
    ensures CategoryQuantity(a + b, menu, c) == CategoryQuantity(a, menu, c) + CategoryQuantity(b, menu, c)
    ensures CategoryRevenue(a + b, menu, c) == CategoryRevenue(a, menu, c) + CategoryRevenue(b, menu, c)
  {
    if a == [] {
      assert a + b == b;
    } else {
      CategoryCountsAppend(a[1..], b, menu, c);
      assert (a + b)[1..] == a[1..] + b;
    }
  }

  /** Recording one more payment raises each category's statistics by that
      payment's own matched items and nothing else. */
  lemma OrderStatsAfterPayment(payments: seq<Payment>, p: Payment, menu: seq<MenuItem>, c: string)
    requires MenuIdsUnique(menu)
    ensures QuantityOf(OrderStats(payments + [p], menu), c)
         == QuantityOf(OrderStats(payments, menu), c) + CategoryQuantity(p.menuItemIds, menu, c)
    ensures RevenueOf(OrderStats(payments + [p], menu), c)
         == RevenueOf(OrderStats(payments, menu), c) + CategoryRevenue(p.menuItemIds, menu, c)
  {
    OrderStatsCorrect(payments, menu);
    OrderStatsCorrect(payments + [p], menu);
    UnwindAppend(payments, [p]);
    assert Unwind([p]) == p.menuItemIds + Unwind([]);
    assert p.menuItemIds + [] == p.menuItemIds;
    CategoryCountsAppend(Unwind(payments), p.menuItemIds, menu, c);
  }

  /** Two payments of one item in "Salad" give one "Salad" row whose revenue
      is twice the menu price, whatever the payments' own prices are. */
  lemma OrderStatsExample()
    ensures OrderStats(
      [Payment("a@x.com", 10, "t1", [], [1]), Payment("a@x.com", 5, "t2", [], [1])],
      [MenuItem(1, "Caesar", "Salad", 7)])
      == [CategoryStat("Salad", 2, 14)]
  {
  }
}
