/** FeedStatus: what is persisted for one feed between reconciles.
    Status is its value; the class holds the fields the controller updates in place. */
module Statuses {
  import opened Basics
  import opened Identities

  /** An RFC3339 field: empty, unparsable, or a time in nanoseconds. */
  datatype Stamp = Empty | Garbled | At(time: int)

  function Formatted(t: int): Stamp {
    At(WholeSeconds(t))
  }

  datatype Condition = Unset | True | False

  /** The watermark, and the recorded keys with their send times. */
  datatype Books = Books(mark: Mark, sent: map<Key, int>)

  /** The retry run, with the Reachable condition its phase is read from. */
  datatype Retry = Retry(count: nat, until: Stamp, reachable: Condition)

  datatype Validators = Validators(etag: string, lastModified: string)

  datatype Status = Status(
    books: Books, run: Retry, lastError: bool, delivered: Condition, lastChecked: Stamp,
    initialized: bool, validators: Validators, stateVersion: nat)

  /** feedCheck.failedOrRetrying: the polling interval does not hold such a feed back. */
  predicate FailedOrRetrying(st: Status) { st.lastError || st.run.count > 0 }

  const FRESH := Status(Books(NoMark, map[]), Retry(0, Empty, Unset), false, Unset, Empty,
                        false, Validators("", ""), 0)

  class FeedStatus {
    var LastSeenEntry: Mark
    var LastSent: map<Key, int>
    var RetryCount: nat
    var BackoffUntil: Stamp
    var Reachable: Condition
    var LastError: bool
    var Delivered: Condition
    var LastChecked: Stamp
    var Initialized: bool
    var ETag: string
    var LastModified: string
    var StateVersion: nat

    constructor (s: Status)
      ensures View() == s
    {
      LastSeenEntry, LastSent := s.books.mark, s.books.sent;
      RetryCount, BackoffUntil, Reachable := s.run.count, s.run.until, s.run.reachable;
      LastError, Delivered, LastChecked := s.lastError, s.delivered, s.lastChecked;
      Initialized, ETag, LastModified := s.initialized, s.validators.etag, s.validators.lastModified;
      StateVersion := s.stateVersion;
    }

    function View(): Status
      reads this
    {
      Status(Books(LastSeenEntry, LastSent), Retry(RetryCount, BackoffUntil, Reachable), LastError, Delivered,
             LastChecked, Initialized, Validators(ETag, LastModified), StateVersion)
    }

    /** *fs = *before: every field at once. */
    method Restore(s: Status)
      modifies this
      ensures View() == s
    {
      LastSeenEntry, LastSent := s.books.mark, s.books.sent;
      RetryCount, BackoffUntil, Reachable := s.run.count, s.run.until, s.run.reachable;
      LastError, Delivered, LastChecked := s.lastError, s.delivered, s.lastChecked;
      Initialized, ETag, LastModified := s.initialized, s.validators.etag, s.validators.lastModified;
      StateVersion := s.stateVersion;
    }
  }
}
