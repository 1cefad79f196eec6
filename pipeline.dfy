/** search_shodan (Shodan_Scout.py lines 22-54) over the answers of the
    remote API: the ip_range stage, then the since stage, then the sort
    stage, then one printed block per result. */
module Pipeline {
  import opened Wrappers
  import opened Decimal
  import opened Values
  import opened Seqs
  import opened IpRange
  import opened SinceFilter
  import opened SortStage
  import opened Render

  /** The arguments of search_shodan that have a local meaning. */
  datatype Options = Options(ipRange: Option<string>, since: Option<string>, sort: Option<string>, exploit: bool)

  /** The answers of the remote API: the matches of the search, and the
      host and exploit lookups by address (an address that is missing is a
      lookup that raised). */
  datatype Remote = Remote(matches: seq<Record>, hosts: map<Value, Host>, exploits: map<Value, seq<Record>>)

  /** Lines 25-39: the results the loop of line 41 runs over, or the
      exception that ends the run before anything is printed. */
  function Results(opts: Options, matches: seq<Record>): Checked<seq<Record>> {
    var afterIp :- IpStage(opts.ipRange, matches);
    var afterSince :- SinceStage(opts.since, afterIp);
    SortStage.SortStage(opts.sort, afterSince)
  }

  /** A match passes every filter that is given. */
  predicate Selected(opts: Options, m: Record) {
    && (Given(opts.ipRange) ==>
          ParseBounds(opts.ipRange.value).Ok? && KeepByIp(ParseBounds(opts.ipRange.value).value, m) == Ok(true))
    && (Given(opts.since) ==>
          SinceBound(opts.since.value).Ok? && KeepSince(SinceBound(opts.since.value).value, m) == Ok(true))
  }

  /** Lines 22-54. */
  method SearchShodan(opts: Options, remote: Remote) returns (lines: seq<string>, failure: Option<Error>)
    ensures Results(opts, remote.matches).Err? ==> lines == [] && failure == Some(Results(opts, remote.matches).error)
    ensures Results(opts, remote.matches).Ok? ==>
      Printed(lines, failure) == RenderAll(Results(opts, remote.matches).value, remote.hosts, remote.exploits, opts.exploit)
  {
    var results := Results(opts, remote.matches);
    if results.Err? {
      return [], Some(results.error);
    }
    lines, failure := PrintResults(results.value, remote.hosts, remote.exploits, opts.exploit);
  }

  /** Without ip_range, since and sort the results are the matches, unchanged. */
  lemma NoOptionsNoChange(opts: Options, matches: seq<Record>)
    requires !Given(opts.ipRange) && !Given(opts.since) && !Given(opts.sort)
    ensures Results(opts, matches) == Ok(matches)
  {
  }

  function Always(): Record -> bool {
    r => true
  }

  /** The predicate the ip stage keeps by, once its bounds are read. */
  function IpPass(opts: Options): Record -> bool {
    if Given(opts.ipRange) && ParseBounds(opts.ipRange.value).Ok? then Passes(IpTest(ParseBounds(opts.ipRange.value).value))
    else Always()
  }

  /** The predicate the since stage keeps by, once its bound is read. */
  function SincePass(opts: Options): Record -> bool {
    if Given(opts.since) && SinceBound(opts.since.value).Ok? then Passes(SinceTest(SinceBound(opts.since.value).value))
    else Always()
  }

  lemma StagesAreFilters(opts: Options, matches: seq<Record>)
    requires Results(opts, matches).Ok?
    ensures IpStage(opts.ipRange, matches).Ok?
    ensures IpStage(opts.ipRange, matches).value == Filter(matches, IpPass(opts))
    ensures SinceStage(opts.since, IpStage(opts.ipRange, matches).value).Ok?
    ensures SinceStage(opts.since, IpStage(opts.ipRange, matches).value).value
            == Filter(IpStage(opts.ipRange, matches).value, SincePass(opts))
    ensures Given(opts.ipRange) ==> ParseBounds(opts.ipRange.value).Ok?
    ensures Given(opts.since) ==> SinceBound(opts.since.value).Ok?
  {
    var afterIp := IpStage(opts.ipRange, matches).value;
    if !Given(opts.ipRange) { FilterKeepsAll(matches, IpPass(opts)); }
    if !Given(opts.since) { FilterKeepsAll(afterIp, SincePass(opts)); }
  }

  /** A match is among the results exactly when it passes both stages. */
  lemma ResultsMembership(opts: Options, matches: seq<Record>, m: Record)
    requires Results(opts, matches).Ok? && m in matches
    ensures m in Results(opts, matches).value <==> IpPass(opts)(m) && SincePass(opts)(m)
  {
    StagesAreFilters(opts, matches);
    var afterIp := IpStage(opts.ipRange, matches).value;
    var afterSince := SinceStage(opts.since, afterIp).value;
    var out := Results(opts, matches).value;
    assert multiset(out) == multiset(afterSince);
    FilterMembership(matches, IpPass(opts), m);
    FilterMembership(afterIp, SincePass(opts), m);
    assert m in out <==> m in multiset(out);
    assert m in afterSince <==> m in multiset(afterSince);
  }

  /** Once the stages succeed, passing both of them is being Selected. */
  lemma PassesIsSelected(opts: Options, matches: seq<Record>, m: Record)
    requires Results(opts, matches).Ok? && m in matches
    ensures IpPass(opts)(m) && SincePass(opts)(m) <==> Selected(opts, m)
  {
    StagesAreFilters(opts, matches);
  }

  /** The results hold exactly the matches that pass every given filter:
      as a sub-multiset of the matches, in their original order when no sort
      field is given and in descending key order when one is. */
  lemma ResultsSoundComplete(opts: Options, matches: seq<Record>)
    requires Results(opts, matches).Ok?
    ensures var out := Results(opts, matches).value;
      && multiset(out) <= multiset(matches)
      && (forall i :: 0 <= i < |matches| ==> (matches[i] in out <==> Selected(opts, matches[i])))
      && (!Given(opts.sort) ==> IsSubsequence(out, matches))
      && (Given(opts.sort) ==> HasField(opts.sort.value, out) && Descending(opts.sort.value, out))
  {
    StagesAreFilters(opts, matches);
    var afterIp := IpStage(opts.ipRange, matches).value;
    var afterSince := SinceStage(opts.since, afterIp).value;
    var out := Results(opts, matches).value;
    assert multiset(out) == multiset(afterSince);
    FilterMultiset(matches, IpPass(opts));
    FilterMultiset(afterIp, SincePass(opts));
    forall i | 0 <= i < |matches|
      ensures matches[i] in out <==> Selected(opts, matches[i])
    {
      ResultsMembership(opts, matches, matches[i]);
      PassesIsSelected(opts, matches, matches[i]);
    }
    if !Given(opts.sort) {
      SubsequenceTransitive(out, afterIp, matches);
    } else {
      SortDescendingOrders(opts.sort.value, afterSince);
    }
  }

  /** Running the stages again on their own results changes nothing. */
  lemma ResultsIdempotent(opts: Options, matches: seq<Record>)
    requires Results(opts, matches).Ok?
    ensures Results(opts, Results(opts, matches).value) == Results(opts, matches)
  {
    var afterIp := IpStage(opts.ipRange, matches).value;
    var afterSince := SinceStage(opts.since, afterIp).value;
    var out := Results(opts, matches).value;
    assert multiset(out) == multiset(afterSince);
    if Given(opts.ipRange) {
      var test := IpTest(ParseBounds(opts.ipRange.value).value);
      forall i | 0 <= i < |out|
        ensures Passes(test)(out[i])
      {
        assert out[i] in multiset(afterSince);
        assert out[i] in afterSince;
        SubsequenceMember(afterSince, afterIp, out[i]);
        FilterMembership(matches, Passes(test), out[i]);
      }
      TryFilterKeepsAll(out, test);
    }
    assert IpStage(opts.ipRange, out) == Ok(out);
    if Given(opts.since) {
      var test := SinceTest(SinceBound(opts.since.value).value);
      forall i | 0 <= i < |out|
        ensures Passes(test)(out[i])
      {
        assert out[i] in multiset(afterSince);
        FilterMembership(afterIp, Passes(test), out[i]);
      }
      TryFilterKeepsAll(out, test);
    }
    assert SinceStage(opts.since, out) == Ok(out);
    SortStageIdempotent(opts.sort, afterSince);
  }

  lemma ShowSmall()
    ensures ShowNat(10) == "10" && ShowNat(15) == "15" && ShowNat(20) == "20"
  {
  }

  lemma ParseTwo(p: string, q: string, n: int, m: int)
    requires IntOf(p) == Ok(n) && IntOf(q) == Ok(m)
    ensures ParseAll([p, q]) == Ok([n, m])
  {
    TryMapPair(p, q, IntOf, n, m);
  }

  lemma SplitRange(lo: nat, hi: nat)
    ensures Split(ShowNat(lo) + "-" + ShowNat(hi), '-') == [ShowNat(lo), ShowNat(hi)]
  {
    var pieces := [ShowNat(lo), ShowNat(hi)];
    assert ShowNat(lo) + "-" + ShowNat(hi) == Join(pieces, '-');
    forall i | 0 <= i < 2
      ensures '-' !in pieces[i]
    {
      forall k | 0 <= k < |pieces[i]|
        ensures pieces[i][k] != '-'
      {
        assert IsDigit(pieces[i][k]);
      }
    }
    SplitJoin(pieces, '-');
  }

  lemma ParseShowNat(n: nat)
    ensures ParseInt(ShowNat(n)) == Some(n)
  {
    assert ShowInt(n) == ShowNat(n);
    ParseShowInt(n);
  }

  /** A bound written "lo-hi" in decimal reads back as (lo, hi). */
  lemma BoundsOfRange(lo: nat, hi: nat)
    ensures ParseBounds(ShowNat(lo) + "-" + ShowNat(hi)) == Ok([lo, hi])
  {
    SplitRange(lo, hi);
    ParseShowNat(lo);
    ParseShowNat(hi);
    assert IntOf(ShowNat(lo)) == Ok(lo) && IntOf(ShowNat(hi)) == Ok(hi);
    ParseTwo(ShowNat(lo), ShowNat(hi), lo, hi);
  }

  /** An address whose first component is n is kept by "10-15" exactly
      when n lies in [10, 15]. */
  lemma KeptByTenToFifteen(r: Record, ip: string, n: nat, rest: string)
    requires "ip_str" in r && r["ip_str"] == Str(ip) && ip == ShowNat(n) + "." + rest
    ensures IpTest([10, 15])(r) == Ok(10 <= n <= 15)
  {
    FirstComponentOnly(r, n, rest);
  }

  lemma ExampleAddresses()
    ensures "10.1.1.1" == ShowNat(10) + "." + "1.1.1"
    ensures "20.2.2.2" == ShowNat(20) + "." + "2.2.2"
    ensures "15.3.3.3" == ShowNat(15) + "." + "3.3.3"
  {
    ShowSmall();
  }

  lemma RangeText()
    ensures "10-15" == ShowNat(10) + "-" + ShowNat(15)
  {
    ShowSmall();
  }

  lemma TenToFifteen()
    ensures ParseBounds("10-15") == Ok([10, 15])
  {
    RangeText();
    BoundsOfRange(10, 15);
  }

  lemma KeepFirstAndLast(a: Record, b: Record, c: Record, test: Record -> Checked<bool>)
    requires test(a) == Ok(true) && test(b) == Ok(false) && test(c) == Ok(true)
    ensures TryFilter([a, b, c], test) == Ok([a, c])
  {
    var rs := [a, b, c];
    assert rs[1..] == [b, c] && [b, c][1..] == [c] && [c][1..] == [];
    assert Filter([c], Passes(test)) == [c];
    assert Filter([b, c], Passes(test)) == [c];
    assert Filter(rs, Passes(test)) == [a, c];
  }

  /** The ip_range example: with "10-15", of 10.1.1.1, 20.2.2.2 and
      15.3.3.3 the first and the last remain, in their order. */
  lemma IpRangeExample(a: Record, b: Record, c: Record)
    requires "ip_str" in a && a["ip_str"] == Str("10.1.1.1")
    requires "ip_str" in b && b["ip_str"] == Str("20.2.2.2")
    requires "ip_str" in c && c["ip_str"] == Str("15.3.3.3")
    ensures IpStage(Some("10-15"), [a, b, c]) == Ok([a, c])
  {
    TenToFifteen();
    ExampleAddresses();
    KeptByTenToFifteen(a, "10.1.1.1", 10, "1.1.1");
    KeptByTenToFifteen(b, "20.2.2.2", 20, "2.2.2");
    KeptByTenToFifteen(c, "15.3.3.3", 15, "3.3.3");
    KeepFirstAndLast(a, b, c, IpTest([10, 15]));
  }
}
