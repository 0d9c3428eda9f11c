/** The monthly history entry the backend publishes and the card reads,
    with the JSON value of its paid flag interpreted both ways. */
module History {
  import opened Base

  /** The scalar JSON values a bill row's `isPaid` field can hold. */
  datatype Json = JNull | JBool(b: bool) | JNumber(n: real) | JString(s: string)

  /** Python truthiness, as `not is_paid` in the backend tests it. */
  predicate PyTruthy(v: Json) {
    match v
    case JNull => false
    case JBool(b) => b
    case JNumber(n) => n != 0.0
    case JString(s) => s != ""
  }

  /** The card's test `is_paid === true || is_paid === 'true'`. Everything
      the card shows as paid, the backend also treats as paid. */
  predicate CardPaid(v: Json)
    ensures CardPaid(v) ==> PyTruthy(v)
  {
    v == JBool(true) || v == JString("true")
  }

  /** The two readings disagree on truthy values other than `true` and
      `'true'`: the backend leaves such a bill out of the unpaid total while
      the card marks it unpaid. */
  lemma PaidReadingsDisagree()
    ensures PyTruthy(JString("false")) && !CardPaid(JString("false"))
    ensures PyTruthy(JNumber(1.0)) && !CardPaid(JNumber(1.0))
  {
  }

  /** One month of the `monthly_history` attribute. */
  datatype HistoryEntry = HistoryEntry(
    date: string,
    volume: real,
    amount: real,
    reading: real,
    lastReading: real,
    unitPrice: real,
    isPaid: Json)

  /** The tooltip's derived unit price `amount / volume`, or `None` (shown
      as `'--'`) when the volume is not positive. */
  function DerivedUnitPrice(volume: real, amount: real): (p: Option<real>)
    ensures p.Some? <==> volume > 0.0
    ensures p.Some? ==> p.value * volume == amount
  {
    if volume > 0.0 then Some(amount / volume) else None
  }
}
