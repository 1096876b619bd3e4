/** planDelivery: which entries of a fetch the send loop scans. */
module Plans {
  import opened Identities
  import opened Ledgers

  const DEFAULT_CATCH_UP := 5

  /** Keeps the newest limit entries; a limit that is not positive falls back to the default. */
  function LimitCatchUp(es: seq<Entry>, limit: int): (r: seq<Entry>)
    ensures |r| <= |es| && r == es[|es| - |r|..]
    ensures |r| == |es| || |r| == (if limit <= 0 then DEFAULT_CATCH_UP else limit)
    ensures |r| <= if limit <= 0 then DEFAULT_CATCH_UP else limit
  {
    var cap := if limit <= 0 then DEFAULT_CATCH_UP else limit;
    if |es| <= cap then es else es[|es| - cap..]
  }

  datatype Plan = Plan(scan: seq<Entry>, resumeAt: nat, skipBacklog: bool) {
    function Entries(): seq<Entry>
      requires resumeAt <= |scan|
    {
      scan[resumeAt..]
    }
  }

  function PlanDelivery(es: seq<Entry>, mark: Lookup, catchUp: int, wasInitialized: bool): (p: Plan)
    requires mark.Found? ==> mark.index < |es|
    ensures p.resumeAt <= |p.scan| <= |es|
  {
    if mark.Found? then Plan(es, mark.index + 1, false)
    else if catchUp == 0 && mark.NotSet? then
      if !wasInitialized then Plan([], 0, true) else Plan(es, 0, false)
    else Plan(LimitCatchUp(es, catchUp), 0, false)
  }

  /** Where in the fetch the send loop starts: it always scans a suffix of the fetch. */
  function Start(es: seq<Entry>, p: Plan): int {
    |es| - |p.scan| + p.resumeAt
  }

  /** The entries scanned are a suffix of the fetch. It is what is behind the watermark when that was
      found; nothing in a first sync without catch-up, and everything once such a feed is initialized
      but has no watermark yet; and otherwise the newest entries, up to the limit, or to five. */
  lemma ScansASuffix(es: seq<Entry>, mark: Lookup, catchUp: int, wasInitialized: bool)
    requires mark.Found? ==> mark.index < |es|
    ensures var p := PlanDelivery(es, mark, catchUp, wasInitialized);
      var scanned, limit := p.scan[p.resumeAt..], if catchUp <= 0 then 5 else catchUp;
      && 0 <= Start(es, p) <= |es| && scanned == es[Start(es, p)..] == p.Entries()
      && (p.skipBacklog <==> mark.NotSet? && catchUp == 0 && !wasInitialized)
      && (mark.Found? ==> p.scan == es && scanned == es[mark.index + 1..])
      && (mark.NotSet? && catchUp == 0 ==> scanned == if wasInitialized then es else [])
      && (mark.Lost? || (mark.NotSet? && catchUp != 0) ==>
            scanned == p.scan == if |es| <= limit then es else es[|es| - limit..])
  {
  }

  lemma ResumeIsInRange(es: seq<Entry>, mark: Mark)
    ensures Resume(es, mark).Found? ==> Resume(es, mark).index < |es|
  {
  }
}
