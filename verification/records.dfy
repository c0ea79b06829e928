/**
  The value records of the inventory catalog (products, suppliers, stock) and
  the failures its containers signal. The C++ program stores every integer
  field in a 32-bit `int`; that width is kept here as the subset type `int32`,
  so that the one place where the program adds two of them (the stock
  quantity) has to state that the sum still fits.
 */
module Records {

  /** The values of a 32-bit two's-complement C++ `int`. */
  predicate IsInt32(x: int) {
    -0x8000_0000 <= x < 0x8000_0000
  }

  type int32 = x: int | IsInt32(x)

  /** A catalog product, keyed by `id`. The floating-point price is carried
      as a `real`; no operation of the model inspects it. */
  datatype Product = Product(id: int32, name: string, price: real, category: string)

  /** A supplier, keyed by `id`. */
  datatype Supplier = Supplier(id: int32, name: string, contactInfo: string)

  /** A stock entry, keyed by the pair (productId, supplierId). */
  datatype Stock = Stock(productId: int32, supplierId: int32, quantity: int32)

  /** Key extractors, passed to the generic list, sort and search operations. */
  function ProductId(p: Product): int { p.id }

  function SupplierId(s: Supplier): int { s.id }

  function StockPair(s: Stock): (int, int) { (s.productId, s.supplierId) }

  function StockQuantity(s: Stock): int { s.quantity }

  /** What a failed operation signals. The first two are the program's
      exception classes; the last two are the messages the menu prints when
      an Add Stock request names an unknown product or supplier. */
  datatype Error =
    | DuplicateID(id: int)
    | NotFound(id: int)
    | UnknownProduct(id: int)
    | UnknownSupplier(id: int)

  /** A reference that may be null. */
  datatype Option<+T> = None | Some(value: T)

  /** The outcome of an operation that may throw: either the new value, or
      the failure, in which case the container keeps its previous state. */
  datatype Result<+T> = Ok(value: T) | Err(error: Error)
}
