/** The search page's session state: the fields that the page's handlers
    replace step by step. Rendering, local storage and the backend call are
    not part of it; the items a search returns are given to `Search`. */
module ClientSession {
  import Seqs
  import Text
  import opened ClientDeals

  class Session {
    var query: string
    var minDisc: string
    var savedOnly: bool
    var products: seq<Product>
    var wishlist: seq<SavedItem>
    var searchHistory: seq<string>
    var viewCounts: map<string, nat>

    /** The state of a fresh page: empty query, "Any" discount, nothing saved,
        searched or viewed. */
    constructor()
      ensures query == "" && minDisc == "Any" && !savedOnly
      ensures products == [] && wishlist == [] && searchHistory == [] && viewCounts == map[]
    {
      query := "";
      minDisc := "Any";
      savedOnly := false;
      products := [];
      wishlist := [];
      searchHistory := [];
      viewCounts := map[];
    }

    /** The list the page shows for the current state. */
    function Filtered(): seq<Product>
      reads this
    {
      FilterProducts(products, query, minDisc, savedOnly, wishlist)
    }

    /** The search box's `setQ`: only the query changes. */
    method SetQuery(text: string)
      modifies this
      ensures query == text
      ensures minDisc == old(minDisc) && savedOnly == old(savedOnly)
      ensures products == old(products) && wishlist == old(wishlist)
      ensures searchHistory == old(searchHistory) && viewCounts == old(viewCounts)
    {
      query := text;
    }

    /** The discount selection's `setMinDisc`: only the selection changes. */
    method SetMinDisc(option: string)
      modifies this
      ensures minDisc == option
      ensures query == old(query) && savedOnly == old(savedOnly)
      ensures products == old(products) && wishlist == old(wishlist)
      ensures searchHistory == old(searchHistory) && viewCounts == old(viewCounts)
    {
      minDisc := option;
    }

    /** The saved-only button's `setSavedOnly((v) => !v)`: only the flag
        changes, to its negation. */
    method ToggleSavedOnly()
      modifies this
      ensures savedOnly == !old(savedOnly)
      ensures query == old(query) && minDisc == old(minDisc)
      ensures products == old(products) && wishlist == old(wishlist)
      ensures searchHistory == old(searchHistory) && viewCounts == old(viewCounts)
    {
      savedOnly := !savedOnly;
    }

    /** `toggleSave(p)`: only the wishlist changes. */
    method ToggleSave(p: Product)
      modifies this
      ensures wishlist == Toggled(old(wishlist), p)
      ensures query == old(query) && minDisc == old(minDisc) && savedOnly == old(savedOnly)
      ensures products == old(products) && searchHistory == old(searchHistory) && viewCounts == old(viewCounts)
    {
      if p.url == "" {
        return;
      }
      if IsSaved(wishlist, p) {
        wishlist := Seqs.Filter(wishlist, UrlIsNot(p.url));
      } else {
        wishlist := wishlist + [Slim(p)];
      }
    }

    /** `handleSearch` once the backend has answered with `items`: a blank
        query searches nothing and changes nothing; otherwise the items
        become the products and the history is updated with the trimmed
        query (`UpdatedHistorySpec` and `UpdatedHistoryNoDuplicates` say what
        that history holds). */
    method Search(items: seq<Product>) returns (searched: bool)
      modifies this
      ensures searched <==> Text.JsTrim(old(query)) != ""
      ensures !searched ==> products == old(products) && searchHistory == old(searchHistory)
      ensures searched ==>
        products == items && searchHistory == UpdatedHistory(old(searchHistory), Text.JsTrim(old(query)))
      ensures query == old(query) && minDisc == old(minDisc) && savedOnly == old(savedOnly)
      ensures wishlist == old(wishlist) && viewCounts == old(viewCounts)
    {
      var keyword := Text.JsTrim(query);
      searched := keyword != "";
      if searched {
        products := items;
        searchHistory := UpdatedHistory(searchHistory, keyword);
      }
    }

    /** `handleViewDeal(p)`: without a url nothing changes; otherwise that
        url's view count goes up by one and no other count changes. */
    method ViewDeal(p: Product)
      modifies this
      ensures p.url == "" ==> viewCounts == old(viewCounts)
      ensures p.url != "" ==> viewCounts == CountedView(old(viewCounts), p.url)
      ensures query == old(query) && minDisc == old(minDisc) && savedOnly == old(savedOnly)
      ensures products == old(products) && wishlist == old(wishlist) && searchHistory == old(searchHistory)
    {
      if p.url == "" {
        return;
      }
      viewCounts := viewCounts[p.url := ViewCount(viewCounts, p.url) + 1];
    }
  }
}
