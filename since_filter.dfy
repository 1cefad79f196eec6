/** The since stage (Shodan_Scout.py lines 32-35): the bound is read as a
    date, midnight of that day, and a result is kept when its last_update
    timestamp is not before the bound. */
module SinceFilter {
  import opened Wrappers
  import opened Values
  import opened Seqs
  import opened Timestamps

  /** `datetime.strptime(since, "%Y-%m-%d")`. */
  function SinceBound(text: string): (r: Checked<DateTime>)
    ensures r.Ok? ==> Valid(r.value) && IsMidnight(r.value)
    ensures r.Err? ==> r.error == ValueError(text)
  {
    match ParseDate(text)
    case None => Err(ValueError(text))
    case Some(t) => Ok(t)
  }

  /** `datetime.strptime(r['last_update'], "%Y-%m-%dT%H:%M:%S.%fZ")`. */
  function LastUpdate(r: Record): Checked<DateTime> {
    if "last_update" !in r then Err(KeyError("last_update"))
    else match r["last_update"]
      case Str(s) =>
        (match ParseStamp(s)
         case None => Err(ValueError(s))
         case Some(t) => Ok(t))
      case _ => Err(TypeError)
  }

  /** The lambda of line 35: `strptime(r['last_update'], ...) >= since`. */
  function KeepSince(bound: DateTime, r: Record): Checked<bool> {
    match LastUpdate(r)
    case Err(e) => Err(e)
    case Ok(t) => Ok(NotAfter(bound, t))
  }

  function SinceTest(bound: DateTime): Record -> Checked<bool> {
    r => KeepSince(bound, r)
  }

  /** Lines 33-35. An absent or empty since leaves the results as they are. */
  function SinceStage(since: Option<string>, rs: seq<Record>): (r: Checked<seq<Record>>)
    ensures !Given(since) ==> r == Ok(rs)
    ensures Given(since) && SinceBound(since.value).Err? ==> r == Err(ValueError(since.value))
    ensures r.Ok? ==> IsSubsequence(r.value, rs)
  {
    if !Given(since) then
      SubsequenceReflexive(rs);
      Ok(rs)
    else match SinceBound(since.value)
      case Err(e) => Err(e)
      case Ok(bound) =>
        FilterIsSubsequence(rs, Passes(SinceTest(bound)));
        TryFilter(rs, SinceTest(bound))
  }

  /** With a readable bound the stage succeeds exactly when every result has
      a readable last_update, and then keeps exactly those stamped at or
      after the bound. */
  lemma SinceSoundComplete(text: string, rs: seq<Record>, bound: DateTime)
    requires text != "" && SinceBound(text) == Ok(bound)
    ensures SinceStage(Some(text), rs).Ok? <==> forall i :: 0 <= i < |rs| ==> LastUpdate(rs[i]).Ok?
    ensures SinceStage(Some(text), rs).Ok? ==>
      && (forall i :: 0 <= i < |rs| ==>
            (rs[i] in SinceStage(Some(text), rs).value <==> NotAfter(bound, LastUpdate(rs[i]).value)))
      && (forall r :: r in SinceStage(Some(text), rs).value ==> NotAfter(bound, LastUpdate(r).value))
  {
    var p := Passes(SinceTest(bound));
    if SinceStage(Some(text), rs).Ok? {
      var out := SinceStage(Some(text), rs).value;
      assert out == Filter(rs, p);
      forall i | 0 <= i < |rs|
        ensures rs[i] in out <==> NotAfter(bound, LastUpdate(rs[i]).value)
      {
        FilterMembership(rs, p, rs[i]);
      }
      forall r | r in out
        ensures NotAfter(bound, LastUpdate(r).value)
      {
        FilterMembership(rs, p, r);
      }
    }
  }

  /** Filtering again with the same bound changes nothing. */
  lemma SinceIdempotent(since: Option<string>, rs: seq<Record>)
    requires SinceStage(since, rs).Ok?
    ensures SinceStage(since, SinceStage(since, rs).value) == SinceStage(since, rs)
  {
    if Given(since) {
      var bound := SinceBound(since.value).value;
      var test := SinceTest(bound);
      var out := SinceStage(since, rs).value;
      assert out == Filter(rs, Passes(test));
      forall i | 0 <= i < |out|
        ensures test(out[i]).Ok?
      {
        FilterMembership(rs, Passes(test), out[i]);
      }
      FilterIdempotent(rs, Passes(test));
    }
  }

  /** Filtering with a later bound after an earlier one is filtering with
      the later bound alone. */
  lemma SinceLaterBound(early: string, late: string, rs: seq<Record>)
    requires early != "" && late != ""
    requires SinceBound(early).Ok? && SinceBound(late).Ok?
    requires NotAfter(SinceBound(early).value, SinceBound(late).value)
    requires SinceStage(Some(early), rs).Ok?
    ensures SinceStage(Some(late), SinceStage(Some(early), rs).value) == SinceStage(Some(late), rs)
  {
    var pe := Passes(SinceTest(SinceBound(early).value));
    var pl := Passes(SinceTest(SinceBound(late).value));
    var out := SinceStage(Some(early), rs).value;
    assert out == Filter(rs, pe);
    forall i | 0 <= i < |out|
      ensures LastUpdate(out[i]).Ok?
    {
      FilterMembership(rs, pe, out[i]);
    }
    FilterFilter(rs, pe, pl);
    forall i | 0 <= i < |rs|
      ensures Both(pe, pl)(rs[i]) == pl(rs[i])
    {
      if pl(rs[i]) {
        NotAfterTransitive(SinceBound(early).value, SinceBound(late).value, LastUpdate(rs[i]).value);
      }
    }
    FilterCongruent(rs, Both(pe, pl), pl);
  }
}
