/**
 * The tracked food item and the values derived from its expiration date:
 * whole days remaining, the colour tier of its progress bar and the
 * progress value itself. Nothing derived is stored; every value is a function
 * of the parsed expiration instant and the current instant.
 */
module Items {
  import opened Common

  /** One food item. An empty id means "not yet stored". */
  datatype InventoryItem = InventoryItem(
    id: string,
    name: string,
    location: string,
    quantity: int,
    expirationDate: string,
    imageUrl: Option<string>)

  /** The item built by the data class's no-argument constructor. */
  const DefaultItem := InventoryItem("", "", "", 0, "", None)

  /** The default item is empty in every field, and items are equal exactly when all six fields are. */
  lemma DefaultItemAndEquality(a: InventoryItem, b: InventoryItem)
    ensures DefaultItem.id == "" && DefaultItem.name == "" && DefaultItem.location == ""
    ensures DefaultItem.quantity == 0 && DefaultItem.expirationDate == "" && DefaultItem.imageUrl.None?
    ensures a == b <==> a.id == b.id && a.name == b.name && a.location == b.location &&
                        a.quantity == b.quantity && a.expirationDate == b.expirationDate && a.imageUrl == b.imageUrl
  {
  }

  const MILLIS_PER_DAY: int := 86_400_000

  /** Long.MAX_VALUE, returned for an expiration date that does not parse. */
  const LONG_MAX: int := 0x7fff_ffff_ffff_ffff

  /** Above this many days the progress bar stops scaling. */
  const MAX_DAYS_THRESHOLD: int := 100

  /**
   * TimeUnit.MILLISECONDS.toDays: division by the length of a day,
   * truncated toward zero as Java's long division is.
   */
  function MillisToDays(diffMillis: int): (days: int)
    ensures diffMillis >= 0 ==> 0 <= days * MILLIS_PER_DAY <= diffMillis < (days + 1) * MILLIS_PER_DAY
    ensures diffMillis < 0 ==> (days - 1) * MILLIS_PER_DAY < diffMillis <= days * MILLIS_PER_DAY <= 0
  {
    if diffMillis >= 0 then diffMillis / MILLIS_PER_DAY else -((-diffMillis) / MILLIS_PER_DAY)
  }

  /**
   * daysRemaining, given the result of parsing the expiration date
   * (None when the parser throws) and the current instant.
   */
  function DaysRemaining(expiration: Option<int>, nowMillis: int): (days: int)
    ensures expiration.None? ==> days == LONG_MAX
  {
    match expiration
    case None => LONG_MAX
    case Some(t) => MillisToDays(t - nowMillis)
  }

  /** The days remaining of an item, with date parsing supplied by the caller. */
  function ItemDaysRemaining(item: InventoryItem, parseDate: string -> Option<int>, nowMillis: int): (days: int)
    ensures parseDate(item.expirationDate).None? ==> days == LONG_MAX
    ensures parseDate(item.expirationDate).Some? ==>
              -MILLIS_PER_DAY < parseDate(item.expirationDate).value - nowMillis - days * MILLIS_PER_DAY < MILLIS_PER_DAY
  {
    DaysRemaining(parseDate(item.expirationDate), nowMillis)
  }

  /** Anything less than a whole day away, in either direction, counts as 0 days: never -1. */
  lemma LessThanADayIsZero(expiration: int, nowMillis: int)
    requires -MILLIS_PER_DAY < expiration - nowMillis < MILLIS_PER_DAY
    ensures DaysRemaining(Some(expiration), nowMillis) == 0
  {
  }

  /** A date in the past gives zero or fewer days, and a negative count only after a whole day has passed. */
  lemma PastDates(expiration: int, nowMillis: int)
    requires expiration <= nowMillis
    ensures DaysRemaining(Some(expiration), nowMillis) <= 0
    ensures DaysRemaining(Some(expiration), nowMillis) < 0 <==> expiration <= nowMillis - MILLIS_PER_DAY
  {
  }

  /** Whole days never exceed the elapsed time: the count is monotone in the expiration instant. */
  lemma DaysRemainingMonotone(e1: int, e2: int, nowMillis: int)
    requires e1 <= e2
    ensures DaysRemaining(Some(e1), nowMillis) <= DaysRemaining(Some(e2), nowMillis)
  {
  }

  // ---------------------------------------------------------------------------
  // Colour of the progress bar

  /** The four colours of expirationColor, most urgent first. */
  datatype Tier = Red | Orange | Turquoise | Green

  function Urgency(t: Tier): nat {
    match t
    case Red => 3
    case Orange => 2
    case Turquoise => 1
    case Green => 0
  }

  /** expirationColor: the urgency is the number of thresholds (2, 7 and 14 days) not yet passed. */
  function ColorTier(days: int): (t: Tier)
    ensures Urgency(t) == (if days <= 2 then 1 else 0) + (if days <= 7 then 1 else 0) + (if days <= 14 then 1 else 0)
  {
    if days <= 2 then Red
    else if days <= 7 then Orange
    else if days <= 14 then Turquoise
    else Green
  }

  /** Each tier covers exactly one band of days. */
  lemma ColorTierBands(days: int)
    ensures ColorTier(days) == Red <==> days <= 2
    ensures ColorTier(days) == Orange <==> 3 <= days <= 7
    ensures ColorTier(days) == Turquoise <==> 8 <= days <= 14
    ensures ColorTier(days) == Green <==> 15 <= days
  {
  }

  /** The tier never becomes more urgent as the days remaining increase. */
  lemma ColorTierMonotone(d1: int, d2: int)
    requires d1 <= d2
    ensures Urgency(ColorTier(d2)) <= Urgency(ColorTier(d1))
  {
  }

  // ---------------------------------------------------------------------------
  // Progress value

  /** getExpirationProgress, over the reals. */
  function Progress(days: int): (p: real)
    ensures 0.01 <= p <= 1.0
    ensures p == 1.0 <==> days <= 0
  {
    if days <= 0 then 1.0
    else if days >= MAX_DAYS_THRESHOLD then 0.1
    else 1.0 - (days as real) / (MAX_DAYS_THRESHOLD as real)
  }

  lemma ProgressSaturates(days: int)
    ensures days <= 0 ==> Progress(days) == 1.0
    ensures days >= 100 ==> Progress(days) == 0.1
    ensures 0.01 <= Progress(days) <= 1.0
  {
  }

  /** Between 1 and 99 days the progress falls linearly from 0.99 to 0.01. */
  lemma ProgressScales(days: int)
    requires 1 <= days <= 99
    ensures Progress(days) == 1.0 - (days as real) / 100.0
    ensures 0.01 <= Progress(days) <= 0.99
  {
  }

  /** Progress never increases with the days remaining up to 99 days ... */
  lemma ProgressMonotoneBelowThreshold(d1: int, d2: int)
    requires d1 <= d2 <= 99
    ensures Progress(d2) <= Progress(d1)
  {
  }

  /** ... but jumps back up from 0.01 at 99 days to 0.1 at 100 days. */
  lemma ProgressNotMonotone()
    ensures Progress(99) == 0.01 && Progress(100) == 0.1
    ensures Progress(99) < Progress(100)
  {
  }

  /** An unparsable expiration date looks far away: green and at 0.1. */
  lemma UnparsableDate(item: InventoryItem, parseDate: string -> Option<int>, nowMillis: int)
    requires parseDate(item.expirationDate).None?
    ensures ItemDaysRemaining(item, parseDate, nowMillis) == LONG_MAX
    ensures ColorTier(ItemDaysRemaining(item, parseDate, nowMillis)) == Green
    ensures Progress(ItemDaysRemaining(item, parseDate, nowMillis)) == 0.1
  {
  }
}
