/** Row shapes of the three tables the statistics report reads (the
    `sellers`, `products` and `sales` tables of main.py), and the per-seller
    statistic the report is built from. Only the columns the report logic
    reads are kept. */
module Rows {

  /** A row of `sellers`: the primary key and the display name. */
  datatype Seller = Seller(id: int, name: string)

  /** A row of `products`: its primary key and the seller that owns it
      (`seller_id` is a plain column, not an enforced foreign key). */
  datatype Product = Product(id: int, sellerId: int)

  /** A row of `sales`. The date is an instant on a fixed integer time
      scale; the quantity is carried but never summed: the report counts rows. */
  datatype Sale = Sale(id: int, productId: int, quantity: int, saleDate: int)

  /** One entry of the list `gather_statistics` returns. */
  datatype SellerStatistic = SellerStatistic(
    sellerId: int,
    sellerName: string,
    productsCount: nat,
    salesCount: nat,
    shipmentsCount: nat)

  /** `products.id` is the primary key of its table: no two rows share it. */
  predicate UniqueProductIds(products: seq<Product>)
  {
    forall j, k :: 0 <= j < k < |products| ==> products[j].id != products[k].id
  }
}
