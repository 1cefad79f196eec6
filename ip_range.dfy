/** The ip_range stage (Shodan_Scout.py lines 26-30): the bound "lo-hi" is
    split on '-' and every piece converted with int(); a match is kept when
    the first '.'-component of its ip_str, read as an int, lies in [lo, hi].
    Only that first component is compared, never the whole address. */
module IpRange {
  import opened Wrappers
  import opened Decimal
  import opened Values
  import opened Seqs

  /** Python's s.split(sep) for a one-character separator. */
  function Split(s: string, sep: char): (pieces: seq<string>)
    ensures |pieces| >= 1
    ensures forall i :: 0 <= i < |pieces| ==> sep !in pieces[i]
  {
    if s == [] then [""]
    else
      var rest := Split(s[1..], sep);
      if s[0] == sep then [""] + rest else [[s[0]] + rest[0]] + rest[1..]
  }

  /** Python's sep.join(pieces). */
  function Join(pieces: seq<string>, sep: char): string
    requires |pieces| >= 1
  {
    if |pieces| == 1 then pieces[0] else pieces[0] + [sep] + Join(pieces[1..], sep)
  }

  lemma {:induction false} JoinSplit(s: string, sep: char)
    ensures Join(Split(s, sep), sep) == s
  {
    if s != [] {
      JoinSplit(s[1..], sep);
      assert s == [s[0]] + s[1..];
    }
  }

  lemma {:induction false} SplitPrefix(a: string, sep: char, tail: string)
    requires sep !in a
    ensures Split(a + tail, sep) == [a + Split(tail, sep)[0]] + Split(tail, sep)[1..]
  {
    if a != [] {
      SplitPrefix(a[1..], sep, tail);
      assert (a + tail)[1..] == a[1..] + tail;
      assert [a[0]] + (a[1..] + Split(tail, sep)[0]) == a + Split(tail, sep)[0];
    } else {
      var sp := Split(tail, sep);
      assert a + tail == tail;
      assert sp == [sp[0]] + sp[1..];
      assert a + sp[0] == sp[0];
    }
  }

  /** Splitting undoes joining pieces that do not contain the separator. */
  lemma {:induction false} SplitJoin(pieces: seq<string>, sep: char)
    requires |pieces| >= 1
    requires forall i :: 0 <= i < |pieces| ==> sep !in pieces[i]
    ensures Split(Join(pieces, sep), sep) == pieces
  {
    if |pieces| == 1 {
      SplitPrefix(pieces[0], sep, "");
      assert pieces[0] + "" == pieces[0];
    } else {
      var rest := Join(pieces[1..], sep);
      SplitJoin(pieces[1..], sep);
      SplitPrefix(pieces[0], sep, [sep] + rest);
      assert pieces[0] + [sep] + rest == pieces[0] + ([sep] + rest);
      assert ([sep] + rest)[1..] == rest;
      var sp := Split([sep] + rest, sep);
      assert sp == [""] + pieces[1..];
      assert sp[0] == "" && sp[1..] == pieces[1..];
      assert pieces[0] + "" == pieces[0];
      assert pieces == [pieces[0]] + pieces[1..];
    }
  }

  /** Every character of a joined string other than the separator comes
      from one of the pieces. */
  lemma {:induction false} CharOfJoin(pieces: seq<string>, sep: char, k: nat) returns (i: nat, j: nat)
    requires |pieces| >= 1 && k < |Join(pieces, sep)| && Join(pieces, sep)[k] != sep
    ensures i < |pieces| && j < |pieces[i]| && pieces[i][j] == Join(pieces, sep)[k]
  {
    if |pieces| == 1 || k < |pieces[0]| {
      i, j := 0, k;
    } else {
      var rest := Join(pieces[1..], sep);
      assert Join(pieces, sep) == pieces[0] + [sep] + rest;
      assert k > |pieces[0]|;
      assert Join(pieces, sep)[k] == rest[k - |pieces[0]| - 1];
      var i', j' := CharOfJoin(pieces[1..], sep, k - |pieces[0]| - 1);
      i, j := i' + 1, j';
    }
  }

  /** `s.split('.')[0]`: the text before the first dot. */
  function FirstComponent(s: string): string {
    Split(s, '.')[0]
  }

  /** int(p), raising ValueError where int() rejects p. */
  function IntOf(p: string): Checked<int> {
    match ParseInt(p)
    case None => Err(ValueError(p))
    case Some(n) => Ok(n)
  }

  /** tuple(map(int, pieces)): the first piece int() rejects raises ValueError. */
  function ParseAll(pieces: seq<string>): (r: Checked<seq<int>>)
    ensures r.Ok? <==> forall i :: 0 <= i < |pieces| ==> IntOf(pieces[i]).Ok?
    ensures r.Ok? ==> |r.value| == |pieces| && forall i :: 0 <= i < |pieces| ==> IntOf(pieces[i]) == Ok(r.value[i])
    ensures r.Err? ==> exists i :: 0 <= i < |pieces| && IntOf(pieces[i]) == Err(r.error) && forall j :: 0 <= j < i ==> IntOf(pieces[j]).Ok?
    ensures r.Err? ==> r.error.ValueError?
  {
    TryMap(pieces, IntOf)
  }

  /** Line 27: `tuple(map(int, ip_range.split('-')))`. */
  function ParseBounds(text: string): Checked<seq<int>> {
    ParseAll(Split(text, '-'))
  }

  /** `int(r['ip_str'].split('.')[0])`. */
  function IpOctet(r: Record): Checked<int> {
    if "ip_str" !in r then Err(KeyError("ip_str"))
    else match r["ip_str"]
      case Str(s) => IntOf(FirstComponent(s))
      case _ => Err(AttributeError)
  }

  /** The lambda of line 28: `ip_range[0] <= int(...) <= ip_range[1]`. The
      chained comparison reads ip_range[1] only when the first half holds. */
  function KeepByIp(bounds: seq<int>, r: Record): Checked<bool> {
    if |bounds| == 0 then Err(IndexError)
    else match IpOctet(r)
      case Err(e) => Err(e)
      case Ok(n) =>
        if !(bounds[0] <= n) then Ok(false)
        else if |bounds| < 2 then Err(IndexError)
        else Ok(n <= bounds[1])
  }

  function IpTest(bounds: seq<int>): Record -> Checked<bool> {
    r => KeepByIp(bounds, r)
  }

  /** Lines 26-30. An absent or empty ip_range leaves the matches as they are. */
  function IpStage(ipRange: Option<string>, matches: seq<Record>): (r: Checked<seq<Record>>)
    ensures !Given(ipRange) ==> r == Ok(matches)
    ensures Given(ipRange) && ParseBounds(ipRange.value).Err? ==> r == Err(ParseBounds(ipRange.value).error)
    ensures r.Ok? ==> IsSubsequence(r.value, matches)
  {
    if !Given(ipRange) then
      SubsequenceReflexive(matches);
      Ok(matches)
    else match ParseBounds(ipRange.value)
      case Err(e) => Err(e)
      case Ok(bounds) =>
        FilterIsSubsequence(matches, Passes(IpTest(bounds)));
        TryFilter(matches, IpTest(bounds))
  }

  /** With bounds lo and hi the stage succeeds exactly when every match has a
      numeric first component, and then keeps exactly the matches whose first
      component lies in [lo, hi]. */
  lemma IpFilterSoundComplete(text: string, matches: seq<Record>, lo: int, hi: int)
    requires text != "" && ParseBounds(text).Ok?
    requires |ParseBounds(text).value| >= 2
    requires ParseBounds(text).value[0] == lo && ParseBounds(text).value[1] == hi
    ensures IpStage(Some(text), matches).Ok? <==> forall i :: 0 <= i < |matches| ==> IpOctet(matches[i]).Ok?
    ensures IpStage(Some(text), matches).Ok? ==>
      && (forall i :: 0 <= i < |matches| ==>
            (matches[i] in IpStage(Some(text), matches).value <==> lo <= IpOctet(matches[i]).value <= hi))
      && (forall r :: r in IpStage(Some(text), matches).value ==> lo <= IpOctet(r).value <= hi)
  {
    var bounds := ParseBounds(text).value;
    IpStageIsTryFilter(text, matches, bounds);
    forall i | 0 <= i < |matches|
      ensures IpTest(bounds)(matches[i]).Ok? <==> IpOctet(matches[i]).Ok?
    {
      IpTestOfTwoBounds(bounds, matches[i]);
    }
    if IpStage(Some(text), matches).Ok? {
      IpKeptExactly(matches, bounds, IpStage(Some(text), matches).value);
    }
  }

  /** A readable bound makes the stage the filter by IpTest. */
  lemma IpStageIsTryFilter(text: string, matches: seq<Record>, bounds: seq<int>)
    requires text != "" && ParseBounds(text) == Ok(bounds)
    ensures IpStage(Some(text), matches) == TryFilter(matches, IpTest(bounds))
  {
  }

  /** With two bounds the test raises only where the first component does,
      and otherwise keeps the record exactly when that component lies
      between them. */
  lemma IpTestOfTwoBounds(bounds: seq<int>, r: Record)
    requires |bounds| >= 2
    ensures IpTest(bounds)(r).Ok? <==> IpOctet(r).Ok?
    ensures Passes(IpTest(bounds))(r) <==> IpOctet(r).Ok? && bounds[0] <= IpOctet(r).value <= bounds[1]
  {
  }

  /** The filter by IpTest over two bounds keeps exactly the matches whose
      first component lies between them. */
  lemma IpKeptExactly(matches: seq<Record>, bounds: seq<int>, out: seq<Record>)
    requires |bounds| >= 2
    requires forall i :: 0 <= i < |matches| ==> IpOctet(matches[i]).Ok?
    requires out == Filter(matches, Passes(IpTest(bounds)))
    ensures forall i :: 0 <= i < |matches| ==>
      (matches[i] in out <==> bounds[0] <= IpOctet(matches[i]).value <= bounds[1])
    ensures forall r :: r in out ==> bounds[0] <= IpOctet(r).value <= bounds[1]
  {
    var p := Passes(IpTest(bounds));
    forall i | 0 <= i < |matches|
      ensures matches[i] in out <==> bounds[0] <= IpOctet(matches[i]).value <= bounds[1]
    {
      FilterMembership(matches, p, matches[i]);
      IpTestOfTwoBounds(bounds, matches[i]);
    }
    forall r | r in out
      ensures bounds[0] <= IpOctet(r).value <= bounds[1]
    {
      FilterMembership(matches, p, r);
      IpTestOfTwoBounds(bounds, r);
    }
  }

  /** A bound without '-' has no upper half: every match whose first
      component reaches the lower bound raises IndexError. */
  lemma LowerBoundOnly(text: string, matches: seq<Record>, lo: int)
    requires text != "" && ParseBounds(text) == Ok([lo])
    ensures IpStage(Some(text), matches).Ok? <==>
      forall i :: 0 <= i < |matches| ==> IpOctet(matches[i]).Ok? && IpOctet(matches[i]).value < lo
    ensures IpStage(Some(text), matches).Ok? ==> IpStage(Some(text), matches).value == []
  {
    var p := Passes(IpTest([lo]));
    forall i | 0 <= i < |matches|
      ensures !p(matches[i])
    {
    }
    FilterRejectsAll(matches, p);
  }

  /** A bound with a '.' in it, a dotted address for one, makes int() raise:
      the run fails with ValueError before any match is looked at. */
  lemma DottedBoundFails(text: string, k: nat, matches: seq<Record>)
    requires k < |text| && text[k] == '.'
    ensures IpStage(Some(text), matches).Err? && IpStage(Some(text), matches).error.ValueError?
  {
    var pieces := Split(text, '-');
    JoinSplit(text, '-');
    var i, j := CharOfJoin(pieces, '-', k);
    ParseIntRejectsDot(pieces[i], j);
  }

  /** The example in the --ip-range help text is such a bound. */
  lemma HelpExampleFails(matches: seq<Record>)
    ensures IpStage(Some("192.168.1.0-192.168.1.255"), matches).Err?
  {
    DottedBoundFails("192.168.1.0-192.168.1.255", 3, matches);
  }

  /** Whatever follows the first dot plays no part: an address that starts
      with the digits of n has first component n. */
  lemma FirstComponentOnly(r: Record, n: nat, rest: string)
    requires "ip_str" in r && r["ip_str"] == Str(ShowNat(n) + "." + rest)
    ensures IpOctet(r) == Ok(n)
  {
    var digits := ShowNat(n);
    assert '.' !in digits by {
      forall c | c in digits ensures c != '.' {
        var k :| 0 <= k < |digits| && digits[k] == c;
        assert IsDigit(digits[k]);
      }
    }
    SplitPrefix(digits, '.', "." + rest);
    assert digits + "." + rest == digits + ("." + rest);
    assert Split("." + rest, '.')[0] == "" by {
      assert ("." + rest)[0] == '.';
    }
    assert FirstComponent(digits + "." + rest) == digits;
    ParseShowInt(n);
  }
}
