/** Record types of the storefront (types.ts), plus the bank-details record the
    settings routes store and the errors the mock API throws. Prices, ratings and
    totals are JavaScript numbers in the source; they are opaque integers here. */
module Types {

  datatype Option<T> = None | Some(value: T)

  datatype Category = Produce | DairyAndEggs | Bakery | MeatAndSeafood | Pantry | Beverages

  /** 'user' | 'admin' | 'sub-admin' */
  datatype UserRole = RegularUser | Admin | SubAdmin

  /** 'card' | 'upi' | 'cod' */
  datatype PaymentMethod = Card | Upi | CashOnDelivery

  datatype OrderStatus = Pending | Processing | Delivered | Cancelled

  datatype Product = Product(
    id: string,
    name: string,
    price: int,
    category: Category,
    image: string,
    description: string,
    unit: string,
    rating: int)

  /** A cart line: a product snapshot with a quantity. In `types.ts` a cart item
      extends the product record with a quantity field; here the product is nested,
      which this layer never observes since it only stores and returns order lines. */
  datatype CartItem = CartItem(product: Product, quantity: int)

  /** `password` is optional in the record type; stored in clear text. */
  datatype User = User(
    id: string,
    name: string,
    contact: string,
    password: Option<string>,
    role: UserRole,
    joinedAt: int)

  datatype Order = Order(
    id: string,
    userId: string,
    userName: string,
    items: seq<CartItem>,
    total: int,
    status: OrderStatus,
    paymentMethod: PaymentMethod,
    createdAt: int)

  /** The single bank-details record kept under the bank key. */
  datatype BankDetails = BankDetails(
    holderName: string,
    accountNumber: string,
    bankName: string,
    ifsc: string,
    upiId: string,
    isLinked: bool)

  /** The errors the API throws, one per `throw new Error(...)`. */
  datatype ApiError = InvalidCredentials | UserAlreadyExists | ProductNotFound | CannotDeleteAdmin

  /** A call that resolves with a value or rejects with an error. */
  datatype Result<T> = Ok(value: T) | Err(error: ApiError)
}
