/** The aggregation step of the statistics report (`gather_statistics`):
    for every seller, in table order, the number of products it owns, the
    number of sales joined to those products, and the number of those sales
    dated at or after the start of the current month. */
module Statistics {
  import opened Rows
  import opened Counting

  /** The date filter of a sales query: every sale, or the sales dated at or
      after a month start. */
  datatype DateFilter = AllTime | Since(monthStart: int)

  predicate Admits(f: DateFilter, s: Sale)
  {
    match f
    case AllTime => true
    case Since(monthStart) => s.saleDate >= monthStart
  }

  /** The row condition of the sales queries: the sale joins the product
      (`sale.product_id == product.id`), the product belongs to the seller,
      and the sale passes the date filter. */
  predicate Joined(s: Sale, p: Product, sellerId: int, f: DateFilter)
  {
    s.productId == p.id && p.sellerId == sellerId && Admits(f, s)
  }

  /** The products query: products whose `seller_id` is the seller's id. */
  function ProductsCount(products: seq<Product>, sellerId: int): nat
  {
    CountIf(products, (p: Product) => p.sellerId == sellerId)
  }

  /** The number of product rows one sale row joins to. */
  function MatchCount(s: Sale, products: seq<Product>, sellerId: int, f: DateFilter): nat
  {
    CountIf(products, (p: Product) => Joined(s, p, sellerId, f))
  }

  /** COUNT(*) of the inner join sales -> products, filtered by owner and date. */
  function JoinCount(sales: seq<Sale>, products: seq<Product>, sellerId: int, f: DateFilter): (r: nat)
    ensures r <= |sales| * |products|
    decreases |sales|
  {
    if sales == [] then 0
    else
      var n := |sales| - 1;
      var before := JoinCount(sales[..n], products, sellerId, f);
      var here := MatchCount(sales[n], products, sellerId, f);
      assert here <= |products|;
      assert |sales| * |products| == n * |products| + |products|;
      before + here
  }

  /** The statistic of one seller, as one iteration of the loop builds it. */
  function StatisticFor(seller: Seller, products: seq<Product>, sales: seq<Sale>, monthStart: int): SellerStatistic
  {
    SellerStatistic(
      seller.id,
      seller.name,
      ProductsCount(products, seller.id),
      JoinCount(sales, products, seller.id, AllTime),
      JoinCount(sales, products, seller.id, Since(monthStart)))
  }

  /** The statistics of all sellers, in the sellers' order. */
  function StatisticsOf(sellers: seq<Seller>, products: seq<Product>, sales: seq<Sale>, monthStart: int): seq<SellerStatistic>
  {
    seq(|sellers|, i requires 0 <= i < |sellers| => StatisticFor(sellers[i], products, sales, monthStart))
  }

  // Reference definitions: the rows and row pairs each query selects.

  /** Positions of the product rows owned by the seller. */
  ghost function OwnedProducts(products: seq<Product>, sellerId: int): set<int>
  {
    set j | 0 <= j < |products| && products[j].sellerId == sellerId
  }

  /** The (sale position, product position) pairs the join query produces. */
  ghost function JoinPairs(sales: seq<Sale>, products: seq<Product>, sellerId: int, f: DateFilter): set<(int, int)>
  {
    set i, j | 0 <= i < |sales| && 0 <= j < |products| && Joined(sales[i], products[j], sellerId, f) :: (i, j)
  }

  /** A sale whose product (by id) is owned by the seller. */
  ghost predicate SoldBy(s: Sale, products: seq<Product>, sellerId: int)
  {
    exists j :: 0 <= j < |products| && products[j].id == s.productId && products[j].sellerId == sellerId
  }

  /** Positions of the sales that pass the filter and whose product is the seller's. */
  ghost function SellerSales(sales: seq<Sale>, products: seq<Product>, sellerId: int, f: DateFilter): set<int>
  {
    set i | 0 <= i < |sales| && Admits(f, sales[i]) && SoldBy(sales[i], products, sellerId)
  }

  /** The products count is the number of product rows owned by the seller. */
  lemma ProductsCountIsOwned(products: seq<Product>, sellerId: int)
    ensures ProductsCount(products, sellerId) == |OwnedProducts(products, sellerId)|
  {
    var keep := (p: Product) => p.sellerId == sellerId;
    CountIfIsCard(products, keep);
    assert IndicesIf(products, keep) == OwnedProducts(products, sellerId);
  }

  /** The pairs (i, j) for one fixed i are as many as the j's. */
  lemma {:induction false} RowCard(i: int, js: set<int>)
    ensures |set j | j in js :: (i, j)| == |js|
    decreases |js|
  {
    if js != {} {
      var j0 := Member(js);
      RowCard(i, js - {j0});
      assert (set j | j in js :: (i, j)) == (set j | j in js - {j0} :: (i, j)) + {(i, j0)};
    }
  }

  /** Positions of the product rows one sale joins to. */
  ghost function MatchIndices(s: Sale, products: seq<Product>, sellerId: int, f: DateFilter): set<int>
  {
    set j | 0 <= j < |products| && Joined(s, products[j], sellerId, f)
  }

  lemma MatchCountIsCard(s: Sale, products: seq<Product>, sellerId: int, f: DateFilter)
    ensures MatchCount(s, products, sellerId, f) == |MatchIndices(s, products, sellerId, f)|
  {
    var keep := (p: Product) => Joined(s, p, sellerId, f);
    CountIfIsCard(products, keep);
    assert IndicesIf(products, keep) == MatchIndices(s, products, sellerId, f);
  }

  /** The join count is the number of (sale, product) pairs the join keeps,
      whether or not product ids are unique. */
  lemma {:induction false} JoinCountIsPairCount(sales: seq<Sale>, products: seq<Product>, sellerId: int, f: DateFilter)
    ensures JoinCount(sales, products, sellerId, f) == |JoinPairs(sales, products, sellerId, f)|
    decreases |sales|
  {
    if sales != [] {
      var n := |sales| - 1;
      JoinCountIsPairCount(sales[..n], products, sellerId, f);
      MatchCountIsCard(sales[n], products, sellerId, f);
      RowCard(n, MatchIndices(sales[n], products, sellerId, f));
      JoinPairsStep(sales, products, sellerId, f);
    }
  }

  /** The pairs of the last sale are added to those of the earlier ones. */
  lemma JoinPairsStep(sales: seq<Sale>, products: seq<Product>, sellerId: int, f: DateFilter)
    requires sales != []
    ensures var n := |sales| - 1;
      |JoinPairs(sales, products, sellerId, f)|
      == |JoinPairs(sales[..n], products, sellerId, f)|
         + |set j | j in MatchIndices(sales[n], products, sellerId, f) :: (n, j)|
  {
    var n := |sales| - 1;
    var prefix := sales[..n];
    var all := JoinPairs(sales, products, sellerId, f);
    var before := JoinPairs(prefix, products, sellerId, f);
    var row := set j | j in MatchIndices(sales[n], products, sellerId, f) :: (n, j);
    forall p | p in all
      ensures p in before + row
    {
      var (i, j) := p;
      if i < n {
        assert prefix[i] == sales[i];
      }
    }
    forall p | p in before + row
      ensures p in all
    {
      var (i, j) := p;
      if i < n {
        assert prefix[i] == sales[i];
      }
    }
    assert all == before + row;
    assert before !! row;
  }

  /** The month filter only removes pairs from the join. */
  lemma MonthPairsAreSalesPairs(sales: seq<Sale>, products: seq<Product>, sellerId: int, monthStart: int)
    ensures JoinPairs(sales, products, sellerId, Since(monthStart)) <= JoinPairs(sales, products, sellerId, AllTime)
  {
  }

  /** Shipments this month never exceed the lifetime sales count. */
  lemma ShipmentsAtMostSales(sales: seq<Sale>, products: seq<Product>, sellerId: int, monthStart: int)
    ensures JoinCount(sales, products, sellerId, Since(monthStart)) <= JoinCount(sales, products, sellerId, AllTime)
  {
    JoinCountIsPairCount(sales, products, sellerId, Since(monthStart));
    JoinCountIsPairCount(sales, products, sellerId, AllTime);
    MonthPairsAreSalesPairs(sales, products, sellerId, monthStart);
    SubsetCard(JoinPairs(sales, products, sellerId, Since(monthStart)), JoinPairs(sales, products, sellerId, AllTime));
  }

  lemma {:induction false} SubsetCard<T>(a: set<T>, b: set<T>)
    requires a <= b
    ensures |a| <= |b|
    decreases |a|
  {
    if a != {} {
      var x :| x in a;
      SubsetCard(a - {x}, b - {x});
    }
  }

  /** With unique product ids a sale joins at most one product: exactly one
      when it passes the filter and its product is the seller's. */
  lemma MatchCountUnique(s: Sale, products: seq<Product>, sellerId: int, f: DateFilter)
    requires UniqueProductIds(products)
    ensures MatchCount(s, products, sellerId, f) == if Admits(f, s) && SoldBy(s, products, sellerId) then 1 else 0
  {
    MatchCountIsCard(s, products, sellerId, f);
    var js := MatchIndices(s, products, sellerId, f);
    if Admits(f, s) && SoldBy(s, products, sellerId) {
      var j0 :| 0 <= j0 < |products| && products[j0].id == s.productId && products[j0].sellerId == sellerId;
      assert js == {j0};
    } else {
      assert js == {};
    }
  }

  /** With unique product ids the join count is the number of sales whose
      product is owned by the seller (and that pass the filter). */
  lemma {:induction false} JoinCountUnique(sales: seq<Sale>, products: seq<Product>, sellerId: int, f: DateFilter)
    requires UniqueProductIds(products)
    ensures JoinCount(sales, products, sellerId, f) == |SellerSales(sales, products, sellerId, f)|
    decreases |sales|
  {
    if sales != [] {
      var n := |sales| - 1;
      var prefix := sales[..n];
      JoinCountUnique(prefix, products, sellerId, f);
      MatchCountUnique(sales[n], products, sellerId, f);
      SellerSalesStep(sales, products, sellerId, f);
    }
  }

  /** Adding the last sale adds its position when it is one of the seller's. */
  lemma SellerSalesStep(sales: seq<Sale>, products: seq<Product>, sellerId: int, f: DateFilter)
    requires sales != []
    ensures var n := |sales| - 1;
      |SellerSales(sales, products, sellerId, f)|
      == |SellerSales(sales[..n], products, sellerId, f)|
         + if Admits(f, sales[n]) && SoldBy(sales[n], products, sellerId) then 1 else 0
  {
    var n := |sales| - 1;
    var prefix := sales[..n];
    var extra := if Admits(f, sales[n]) && SoldBy(sales[n], products, sellerId) then {n} else {};
    forall i | 0 <= i < n
      ensures sales[i] == prefix[i]
    {
    }
    assert SellerSales(sales, products, sellerId, f) == SellerSales(prefix, products, sellerId, f) + extra;
    assert SellerSales(prefix, products, sellerId, f) !! extra;
  }

  /** What one statistic says about its seller and the tables. */
  lemma StatisticForMeaning(seller: Seller, products: seq<Product>, sales: seq<Sale>, monthStart: int)
    ensures var st := StatisticFor(seller, products, sales, monthStart);
      && st.sellerId == seller.id && st.sellerName == seller.name
      && st.productsCount == |OwnedProducts(products, seller.id)|
      && st.salesCount == |JoinPairs(sales, products, seller.id, AllTime)|
      && st.shipmentsCount == |JoinPairs(sales, products, seller.id, Since(monthStart))|
      && st.shipmentsCount <= st.salesCount
  {
    ProductsCountIsOwned(products, seller.id);
    JoinCountIsPairCount(sales, products, seller.id, AllTime);
    JoinCountIsPairCount(sales, products, seller.id, Since(monthStart));
    ShipmentsAtMostSales(sales, products, seller.id, monthStart);
  }

  /** `gather_statistics`: one statistic per seller, in the sellers' order.
      The month start is passed in rather than read from the clock. */
  method GatherStatistics(sellers: seq<Seller>, products: seq<Product>, sales: seq<Sale>, monthStart: int)
    returns (stats: seq<SellerStatistic>)
    ensures stats == StatisticsOf(sellers, products, sales, monthStart)
    ensures |stats| == |sellers|
    ensures forall i :: 0 <= i < |sellers| ==>
      && stats[i].sellerId == sellers[i].id
      && stats[i].sellerName == sellers[i].name
      && stats[i].shipmentsCount <= stats[i].salesCount
  {
    stats := [];
    for k := 0 to |sellers|
      invariant |stats| == k
      invariant forall i :: 0 <= i < k ==> stats[i] == StatisticFor(sellers[i], products, sales, monthStart)
      invariant forall i :: 0 <= i < k ==> stats[i].shipmentsCount <= stats[i].salesCount
    {
      var seller := sellers[k];
      var productsCount := ProductsCount(products, seller.id);
      var salesCount := JoinCount(sales, products, seller.id, AllTime);
      var shipmentsCount := JoinCount(sales, products, seller.id, Since(monthStart));
      ShipmentsAtMostSales(sales, products, seller.id, monthStart);
      stats := stats + [SellerStatistic(seller.id, seller.name, productsCount, salesCount, shipmentsCount)];
    }
  }
}
