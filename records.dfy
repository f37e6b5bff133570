/** One sales line of supermarket.csv after loading, and the column
    accessors the filters and the group-bys use. */
module Records {

  import Ordering

  datatype Option<T> = None | Some(value: T)

  /** A calendar date as a day number; `pd.to_datetime` yields midnight
      timestamps, so comparing day numbers is comparing the timestamps. */
  type Date = int

  /** One row of the data frame. Money is in cents. Promo_Applied is kept
      as its text; every categorical column is a string. */
  datatype Record = Record(
    transactionId: string,
    date: Date,
    storeRegion: string,
    category: string,
    customerType: string,
    promoApplied: string,
    paymentMethod: string,
    unitPrice: int,
    quantity: int)

  /** The Revenue column added at load time: unit price times quantity. */
  function Revenue(r: Record): (rev: int)
    ensures r.unitPrice >= 0 && r.quantity >= 0 ==> rev >= 0
    ensures r.unitPrice == 0 || r.quantity == 0 ==> rev == 0
  {
    r.unitPrice * r.quantity
  }

  /** Every record has a non-negative price and quantity. */
  ghost predicate NonNegative(rs: seq<Record>) {
    forall r :: r in rs ==> r.unitPrice >= 0 && r.quantity >= 0
  }

  function DateOf(r: Record): Date { r.date }
  function RegionOf(r: Record): string { r.storeRegion }
  function CategoryOf(r: Record): string { r.category }
  function CustomerTypeOf(r: Record): string { r.customerType }
  function PromoOf(r: Record): string { r.promoApplied }
  function PaymentMethodOf(r: Record): string { r.paymentMethod }

  /** `<=` on dates. */
  predicate DateLe(a: Date, b: Date) { a <= b }

  lemma DateLeIsTotalPreorder()
    ensures Ordering.IsTotalPreorder(DateLe)
  {
  }

  /** The column `df[c]` as a sequence, one value per record. */
  function Column<K>(rs: seq<Record>, keyOf: Record -> K): seq<K> {
    seq(|rs|, i requires 0 <= i < |rs| => keyOf(rs[i]))
  }
}
