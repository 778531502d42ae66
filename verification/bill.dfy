/** The `Bill` record, reduced to the two fields `displayTitle` reads. */
module Bills {
  import opened Options

  /**
   * A bill as the API returns it. Java's nullable `String` titles are
   * optional values; the remaining data-transfer fields carry no behaviour.
   */
  datatype Bill = Bill(shortTitle: Option<string>, officialTitle: Option<string>)

  /** `displayTitle`: the short title when there is one, the official title otherwise. */
  function DisplayTitle(bill: Bill): (title: Option<string>)
    ensures bill.shortTitle.Some? ==> title == bill.shortTitle
    ensures bill.shortTitle.None? ==> title == bill.officialTitle
    ensures title.None? <==> bill.shortTitle.None? && bill.officialTitle.None?
  {
    if bill.shortTitle.Some? then bill.shortTitle else bill.officialTitle
  }
}
