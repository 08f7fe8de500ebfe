/**
 * The three kinds of record the review tools pass around: summary records
 * read from a summary file, error records found in a run's log and report,
 * and display records built by reconciling the two.
 */
module Records {
  import opened Outcomes
  import opened Ordering

  /** The five states of a display record. */
  datatype RecordType = Comment | Unmatched | Unchecked | Checked | Uncommitted

  /**
   * A reviewed line of a summary file. `keyData` is the comparison text:
   * the data itself, or the data with its error counts folded into a
   * sentinel.
   */
  datatype SummaryRecord = SummaryRecord(
    priority: nat, reference: string, level: string, keyData: string, data: string)

  /** An error found in a log or report file; its data is "section line". */
  datatype ErrorRecord = ErrorRecord(priority: nat, section: string, data: string)

  /**
   * A line of the review display. `keyData` is not an entry of the source's
   * display record: it is the comparison text the intended order uses, the
   * summary record's keyData or the error record's data it was built from.
   */
  datatype DisplayRecord = DisplayRecord(
    priority: nat, reference: string, data: string, level: string,
    rtype: RecordType, keyData: string)

  function SummaryKey(r: SummaryRecord): Key {
    Key(r.priority, r.keyData)
  }

  function ErrorKey(r: ErrorRecord): Key {
    Key(r.priority, r.data)
  }

  function DisplayKey(r: DisplayRecord): Key {
    Key(r.priority, r.keyData)
  }

  // What CompareErrors can read of each kind of record: a summary record has
  // a 'keyData' entry; an error record (priority, section, data) and a display
  // record (level, priority, reference, data, type) have none.

  function SummaryEntries(r: SummaryRecord): Entries {
    Entries(r.priority, Some(r.keyData))
  }

  function ErrorEntries(r: ErrorRecord): Entries {
    Entries(r.priority, None)
  }

  function DisplayEntries(r: DisplayRecord): Entries {
    Entries(r.priority, None)
  }

  /** The level a display record carries when no review level applies. */
  const UNKNOWN_LEVEL: string := "unknown"
}
