/** The all-deals page: it reads the last results the search page stored and
    lists them by discount, highest first, where a missing discount counts as
    zero. Its price parser is the search page's, `ClientDeals.ParsePriceToNumber`. */
module DealsPage {
  import Seqs
  import StableSort
  import opened ClientDeals

  /** What the stored "last results" entry turns out to be when read. */
  datatype StoredResults =
    | NoEntry                         // no entry, or an empty one
    | Unparsable                      // `JSON.parse` throws
    | NotAList                        // parses to null, a number, a string or an object
    | ProductList(items: seq<Product>)

  /** The list the page shows. A value that is not a list either turns into
      `[]` through `|| []` or makes `sort` throw, and the page keeps its
      empty initial list in both cases. */
  function LoadedDeals(stored: StoredResults): (r: seq<Product>)
    ensures |r| == if stored.ProductList? then |stored.items| else 0
  {
    match stored
    case ProductList(items) => StableSort.SortDesc(items, DiscountKey)
    case _ => []
  }

  /** The page shows the stored products and only them, each as often as it
      was stored, in descending order of discount, with equal discounts in
      their stored order; anything but a stored list shows nothing. */
  lemma LoadedDealsSpec(stored: StoredResults, k: real)
    ensures !stored.ProductList? ==> LoadedDeals(stored) == []
    ensures stored.ProductList? ==> multiset(LoadedDeals(stored)) == multiset(stored.items)
    ensures StableSort.SortedDesc(LoadedDeals(stored), DiscountKey)
    ensures stored.ProductList? ==>
      Seqs.Filter(LoadedDeals(stored), StableSort.KeyIs(DiscountKey, k))
      == Seqs.Filter(stored.items, StableSort.KeyIs(DiscountKey, k))
  {
    if stored.ProductList? {
      StableSort.SortDescPermutes(stored.items, DiscountKey);
      StableSort.SortDescSorted(stored.items, DiscountKey);
      StableSort.SortDescStable(stored.items, DiscountKey, k);
    }
  }

  /** Products without a discount are kept, and every product with a positive
      discount is listed before them. */
  lemma NoDiscountListedLast(stored: StoredResults, i: nat, j: nat)
    requires i < |LoadedDeals(stored)| && j < |LoadedDeals(stored)|
    requires LoadedDeals(stored)[i].discountPercent.None?
    requires DiscountKey(LoadedDeals(stored)[j]) > 0.0
    ensures j < i
  {
    LoadedDealsSpec(stored, 0.0);
  }
}
