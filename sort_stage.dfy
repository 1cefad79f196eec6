/** The sort stage (Shodan_Scout.py lines 37-39):
    `sorted(results, key=lambda r: r[sort], reverse=True)`, a stable sort in
    descending key order. */
module SortStage {
  import opened Wrappers
  import opened Values
  import opened Seqs

  predicate HasField(field: string, rs: seq<Record>) {
    forall i :: 0 <= i < |rs| ==> field in rs[i]
  }

  /** Every adjacent pair (a, b) has a[field] >= b[field]. */
  predicate Descending(field: string, rs: seq<Record>)
    requires HasField(field, rs)
  {
    forall i :: 0 <= i < |rs| - 1 ==> !KeyLess(rs[i][field], rs[i + 1][field])
  }

  /** The records whose key is k. */
  function KeyIs(field: string, k: Value): Record -> bool {
    r => field in r && r[field] == k
  }

  /** Python can compare the keys: fewer than two records, or all keys ints,
      or all keys strings. */
  predicate Orderable(field: string, rs: seq<Record>)
    requires HasField(field, rs)
  {
    || |rs| < 2
    || (forall i :: 0 <= i < |rs| ==> rs[i][field].Int?)
    || (forall i :: 0 <= i < |rs| ==> rs[i][field].Str?)
  }

  /** Puts x in front of the first record whose key is not above x's. */
  function Insert(field: string, x: Record, rs: seq<Record>): (r: seq<Record>)
    requires field in x && HasField(field, rs)
    ensures |r| == |rs| + 1 && HasField(field, r)
    ensures r[0] == x || (rs != [] && r[0] == rs[0])
    ensures multiset(r) == multiset(rs) + multiset{x}
  {
    if rs == [] || !KeyLess(x[field], rs[0][field]) then [x] + rs
    else
      assert rs == [rs[0]] + rs[1..];
      [rs[0]] + Insert(field, x, rs[1..])
  }

  /** Insertion sort, taking the records from the back of the input so that
      each one inserted comes before all those already placed. */
  function SortDescending(field: string, rs: seq<Record>): (r: seq<Record>)
    requires HasField(field, rs)
    ensures |r| == |rs| && HasField(field, r)
    ensures multiset(r) == multiset(rs)
  {
    if rs == [] then []
    else
      assert rs == [rs[0]] + rs[1..];
      Insert(field, rs[0], SortDescending(field, rs[1..]))
  }

  lemma {:induction false} InsertDescending(field: string, x: Record, rs: seq<Record>)
    requires field in x && HasField(field, rs) && Descending(field, rs)
    ensures Descending(field, Insert(field, x, rs))
  {
    if rs != [] && KeyLess(x[field], rs[0][field]) {
      InsertDescending(field, x, rs[1..]);
      KeyLessAsymmetric(x[field], rs[0][field]);
    }
  }

  lemma {:induction false} SortDescendingOrders(field: string, rs: seq<Record>)
    requires HasField(field, rs)
    ensures Descending(field, SortDescending(field, rs))
  {
    if rs != [] {
      SortDescendingOrders(field, rs[1..]);
      InsertDescending(field, rs[0], SortDescending(field, rs[1..]));
    }
  }

  /** One step of InsertStable: x goes behind the head of rs. */
  lemma InsertBehindStable(field: string, x: Record, rs: seq<Record>, k: Value, ins: seq<Record>)
    requires field in x && rs != [] && field in rs[0] && KeyLess(x[field], rs[0][field])
    requires Filter(ins, KeyIs(field, k)) == (if x[field] == k then [x] else []) + Filter(rs[1..], KeyIs(field, k))
    ensures Filter([rs[0]] + ins, KeyIs(field, k)) == (if x[field] == k then [x] else []) + Filter(rs, KeyIs(field, k))
  {
    var p := KeyIs(field, k);
    var front := if x[field] == k then [x] else [];
    var head := if p(rs[0]) then [rs[0]] else [];
    FilterCons(rs[0], ins, p);
    assert rs == [rs[0]] + rs[1..];
    FilterCons(rs[0], rs[1..], p);
    assert Filter(rs, p) == head + Filter(rs[1..], p);
    if x[field] == k {
      KeyLessIrreflexive(k);
      assert head == [];
      assert Filter([rs[0]] + ins, p) == Filter(ins, p);
      assert Filter(rs, p) == Filter(rs[1..], p);
    } else {
      assert front == [];
      assert Filter(ins, p) == Filter(rs[1..], p);
    }
  }

  lemma {:induction false} InsertStable(field: string, x: Record, rs: seq<Record>, k: Value)
    requires field in x && HasField(field, rs)
    ensures Filter(Insert(field, x, rs), KeyIs(field, k))
         == (if x[field] == k then [x] else []) + Filter(rs, KeyIs(field, k))
  {
    if rs == [] || !KeyLess(x[field], rs[0][field]) {
      FilterCons(x, rs, KeyIs(field, k));
    } else {
      var ins := Insert(field, x, rs[1..]);
      InsertStable(field, x, rs[1..], k);
      InsertBehindStable(field, x, rs, k, ins);
    }
  }

  /** Records with equal keys keep their input order. */
  lemma {:induction false} SortDescendingStable(field: string, rs: seq<Record>, k: Value)
    requires HasField(field, rs)
    ensures Filter(SortDescending(field, rs), KeyIs(field, k)) == Filter(rs, KeyIs(field, k))
  {
    if rs != [] {
      SortDescendingStable(field, rs[1..], k);
      InsertStable(field, rs[0], SortDescending(field, rs[1..]), k);
    }
  }

  /** Sorting what is already in descending order changes nothing. */
  lemma {:induction false} SortDescendingOfDescending(field: string, rs: seq<Record>)
    requires HasField(field, rs) && Descending(field, rs)
    ensures SortDescending(field, rs) == rs
  {
    if rs != [] {
      SortDescendingOfDescending(field, rs[1..]);
      assert [rs[0]] + rs[1..] == rs;
    }
  }

  /** Lines 38-39. Computing the keys raises KeyError on the first record
      without the field; comparing two keys of different types, or a None,
      raises TypeError, and a sort of two or more records compares every one
      of them, with some neighbour in the result. */
  function SortStage(sort: Option<string>, rs: seq<Record>): (r: Checked<seq<Record>>)
    ensures !Given(sort) ==> r == Ok(rs)
    ensures Given(sort) ==> (r.Ok? <==> HasField(sort.value, rs) && Orderable(sort.value, rs))
    ensures Given(sort) && !HasField(sort.value, rs) ==> r == Err(KeyError(sort.value))
    ensures Given(sort) && HasField(sort.value, rs) && !Orderable(sort.value, rs) ==> r == Err(TypeError)
    ensures r.Ok? ==> multiset(r.value) == multiset(rs)
  {
    if !Given(sort) then Ok(rs)
    else if !HasField(sort.value, rs) then Err(KeyError(sort.value))
    else if !Orderable(sort.value, rs) then Err(TypeError)
    else Ok(SortDescending(sort.value, rs))
  }

  lemma MultisetMember(a: seq<Record>, b: seq<Record>, i: nat)
    requires multiset(a) == multiset(b) && i < |a|
    ensures a[i] in b
  {
    assert a[i] in multiset(a);
  }

  /** A successful sort puts the records in descending key order as Python
      compares them (no adjacent a, b with a[sort] < b[sort]), keeps records
      with equal keys in input order, and loses and adds nothing. */
  lemma SortStageOrdersStably(field: string, rs: seq<Record>)
    requires field != "" && SortStage(Some(field), rs).Ok?
    ensures var out := SortStage(Some(field), rs).value;
      && multiset(out) == multiset(rs)
      && HasField(field, out)
      && (forall i :: 0 <= i < |out| - 1 ==> PyLess(out[i][field], out[i + 1][field]) == Ok(false))
      && (forall k :: Filter(out, KeyIs(field, k)) == Filter(rs, KeyIs(field, k)))
  {
    var out := SortStage(Some(field), rs).value;
    SortDescendingOrders(field, rs);
    forall k
      ensures Filter(out, KeyIs(field, k)) == Filter(rs, KeyIs(field, k))
    {
      SortDescendingStable(field, rs, k);
    }
    forall i | 0 <= i < |out| - 1
      ensures PyLess(out[i][field], out[i + 1][field]) == Ok(false)
    {
      MultisetMember(out, rs, i);
      MultisetMember(out, rs, i + 1);
      var a :| 0 <= a < |rs| && rs[a] == out[i];
      var b :| 0 <= b < |rs| && rs[b] == out[i + 1];
      assert PyLess(out[i][field], out[i + 1][field]).Ok?;
      KeyLessAgrees(out[i][field], out[i + 1][field]);
    }
  }

  /** Sorting the result again gives the same result. */
  lemma SortStageIdempotent(sort: Option<string>, rs: seq<Record>)
    requires SortStage(sort, rs).Ok?
    ensures SortStage(sort, SortStage(sort, rs).value) == SortStage(sort, rs)
  {
    if Given(sort) {
      var out := SortStage(sort, rs).value;
      var f := sort.value;
      SortDescendingOrders(f, rs);
      SortDescendingOfDescending(f, out);
      forall i | 0 <= i < |out|
        ensures exists j :: 0 <= j < |rs| && rs[j] == out[i]
      {
        MultisetMember(out, rs, i);
      }
      assert Orderable(f, out);
    }
  }

  /** Three records x, y, w where y's key is not below w's and x's key is
      below w's come out as y, w, x. */
  lemma SortThree(field: string, x: Record, y: Record, w: Record)
    requires field in x && field in y && field in w
    requires !KeyLess(y[field], w[field]) && KeyLess(x[field], w[field])
    ensures SortDescending(field, [x, y, w]) == [y, w, x]
  {
    if w[field] != y[field] {
      KeyLessTotal(y[field], w[field]);
      KeyLessTransitive(x[field], w[field], y[field]);
    }
    assert KeyLess(x[field], y[field]);
    var rs := [x, y, w];
    assert rs[1..] == [y, w] && [y, w][1..] == [w] && [w][1..] == [];
    assert SortDescending(field, [w]) == [w];
    assert Insert(field, y, [w]) == [y, w];
    assert Insert(field, x, [w]) == [w, x];
    assert Insert(field, x, [y, w]) == [y, w, x];
  }

  /** Three string keys are comparable, so the sort succeeds. */
  lemma SortStageOfThree(field: string, x: Record, y: Record, w: Record)
    requires field != "" && field in x && field in y && field in w
    requires x[field].Str? && y[field].Str? && w[field].Str?
    ensures SortStage(Some(field), [x, y, w]) == Ok(SortDescending(field, [x, y, w]))
  {
    var rs := [x, y, w];
    assert HasField(field, rs);
    assert forall i :: 0 <= i < |rs| ==> rs[i][field].Str?;
  }

  lemma OrgKeys()
    ensures StrLess("Acme", "Zeta") && StrLess("Acme", "Mono") && !StrLess("Zeta", "Mono")
  {
  }

  /** The org example: records whose org is "Acme", "Zeta" and "Mono"
      come out as Zeta, Mono, Acme. */
  lemma SortByOrgExample(a: Record, z: Record, m: Record)
    requires "org" in a && a["org"] == Str("Acme")
    requires "org" in z && z["org"] == Str("Zeta")
    requires "org" in m && m["org"] == Str("Mono")
    ensures SortStage(Some("org"), [a, z, m]) == Ok([z, m, a])
  {
    OrgKeys();
    SortThree("org", a, z, m);
    SortStageOfThree("org", a, z, m);
  }
}
