/** The rendering loop (Shodan_Scout.py lines 41-54): for each result, in
    order, a header with the address and the organisation, then OS, SSL and
    Banner lines with "Unknown" for what the host lookup lacks, then, when
    exploit enrichment is on and the exploit lookup found any, a
    "Vulnerabilities:" line and one line per exploit. */
module Render {
  import opened Wrappers
  import opened Values

  /** What `host.get('data', {})` finds: no entry, a dictionary, or a value
      of another type, whose `.get` raises AttributeError. */
  datatype HostData = NoData | Fields(entries: map<string, Value>) | NotDict

  /** The answer of a host lookup: its entries other than 'data', and 'data'. */
  datatype Host = Host(attrs: map<string, Value>, data: HostData)

  /** What the program has written to standard output, one string per
      print call, and the exception that ended the run, if one did. */
  datatype Printed = Printed(lines: seq<string>, failure: Option<Error>)

  /** `m.get(key, 'Unknown')`, printed. */
  function OrUnknown(m: map<string, Value>, key: string): string {
    if key in m then Show(m[key]) else "Unknown"
  }

  /** Line 43: `f"{result['ip_str']} ({host['org']}):"`. */
  function Header(ip: Value, org: Value): string {
    Show(ip) + " (" + Show(org) + "):"
  }

  /** print joins its two arguments with a space: "\tOS: " then " ". */
  function OsLine(h: Host): string {
    "\tOS:  " + OrUnknown(h.attrs, "os")
  }

  function SslLine(h: Host): string {
    "\tSSL:  " + OrUnknown(h.attrs, "ssl")
  }

  function BannerLine(d: HostData): string
    requires !d.NotDict?
  {
    "\tBanner:  " + (if d.Fields? then OrUnknown(d.entries, "product") else "Unknown")
  }

  const VulnerabilitiesLine: string := "\tVulnerabilities:"

  /** Line 54 for one exploit entry; 'title' is looked up before 'cve'. */
  function ExploitLine(e: Record): Checked<string> {
    if "title" !in e then Err(KeyError("title"))
    else if "cve" !in e then Err(KeyError("cve"))
    else Ok("\t\t" + Show(e["title"]) + " (" + Show(e["cve"]) + ")")
  }

  /** Lines 53-54: the exploit lines in list order, up to the first that raises. */
  function ExploitLines(xs: seq<Record>): Printed {
    if xs == [] then Printed([], None)
    else
      var before := ExploitLines(xs[..|xs| - 1]);
      if before.failure.Some? then before
      else match ExploitLine(xs[|xs| - 1])
        case Err(e) => Printed(before.lines, Some(e))
        case Ok(line) => Printed(before.lines + [line], None)
  }

  /** Lines 42-54 for one result. `hosts` and `exploits` hold the answers of
      api.host and api.exploit by address; an address missing from them is a
      lookup that raised. */
  function Block(result: Record, hosts: map<Value, Host>, exploits: map<Value, seq<Record>>, exploit: bool): Printed {
    if "ip_str" !in result then Printed([], Some(KeyError("ip_str")))
    else
      var ip := result["ip_str"];
      if ip !in hosts then Printed([], Some(LookupFailed(ip)))
      else
        var host := hosts[ip];
        if "org" !in host.attrs then Printed([], Some(KeyError("org")))
        else
          var head := [Header(ip, host.attrs["org"]), OsLine(host), SslLine(host)];
          if host.data.NotDict? then Printed(head, Some(AttributeError))
          else
            var lines := head + [BannerLine(host.data)];
            if !exploit then Printed(lines, None)
            else if ip !in exploits then Printed(lines, Some(LookupFailed(ip)))
            else if exploits[ip] == [] then Printed(lines, None)
            else
              var found := ExploitLines(exploits[ip]);
              Printed(lines + [VulnerabilitiesLine] + found.lines, found.failure)
  }

  /** Lines 41-54: the blocks of the results in order, up to the first
      exception. */
  function RenderAll(results: seq<Record>, hosts: map<Value, Host>, exploits: map<Value, seq<Record>>, exploit: bool): Printed {
    if results == [] then Printed([], None)
    else
      var before := RenderAll(results[..|results| - 1], hosts, exploits, exploit);
      if before.failure.Some? then before
      else
        var block := Block(results[|results| - 1], hosts, exploits, exploit);
        Printed(before.lines + block.lines, block.failure)
  }

  /** What the name `exploit` is bound to: first the flag; the inner loop of
      line 53 rebinds it to each exploit entry in turn. */
  datatype Binding = Flag(on: bool) | Entry(entry: Record)

  /** Python truthiness of the binding: a dictionary is true when not empty. */
  predicate Truthy(b: Binding) {
    match b
    case Flag(on) => on
    case Entry(e) => e != map[]
  }

  lemma RenderAllStep(results: seq<Record>, i: nat, hosts: map<Value, Host>, exploits: map<Value, seq<Record>>, exploit: bool)
    requires i < |results| && RenderAll(results[..i], hosts, exploits, exploit).failure == None
    ensures RenderAll(results[..i + 1], hosts, exploits, exploit)
         == Printed(RenderAll(results[..i], hosts, exploits, exploit).lines + Block(results[i], hosts, exploits, exploit).lines,
                    Block(results[i], hosts, exploits, exploit).failure)
  {
    assert results[..i + 1][..i] == results[..i];
  }

  /** Once a block raises, nothing after it is printed. */
  lemma {:induction false} RenderAllStops(results: seq<Record>, n: nat, hosts: map<Value, Host>, exploits: map<Value, seq<Record>>, exploit: bool)
    requires n <= |results| && RenderAll(results[..n], hosts, exploits, exploit).failure.Some?
    ensures RenderAll(results, hosts, exploits, exploit) == RenderAll(results[..n], hosts, exploits, exploit)
  {
    if n < |results| {
      assert results[..|results| - 1][..n] == results[..n];
      RenderAllStops(results[..|results| - 1], n, hosts, exploits, exploit);
    } else {
      assert results[..n] == results;
    }
  }

  lemma {:induction false} ExploitLinesStops(xs: seq<Record>, n: nat)
    requires n <= |xs| && ExploitLines(xs[..n]).failure.Some?
    ensures ExploitLines(xs) == ExploitLines(xs[..n])
  {
    if n < |xs| {
      assert xs[..|xs| - 1][..n] == xs[..n];
      ExploitLinesStops(xs[..|xs| - 1], n);
    } else {
      assert xs[..n] == xs;
    }
  }

  lemma ExploitLinesStep(xs: seq<Record>, j: nat)
    requires j < |xs| && ExploitLines(xs[..j]).failure == None
    ensures ExploitLines(xs[..j + 1]) == match ExploitLine(xs[j])
      case Err(e) => Printed(ExploitLines(xs[..j]).lines, Some(e))
      case Ok(line) => Printed(ExploitLines(xs[..j]).lines + [line], None)
  {
    assert xs[..j + 1][..j] == xs[..j];
  }

  /** The exploit lines are printed in full exactly when every entry has
      a 'title' and a 'cve': then one line per entry, in list order. */
  lemma {:induction false} ExploitLinesContents(xs: seq<Record>)
    ensures ExploitLines(xs).failure == None <==> forall j :: 0 <= j < |xs| ==> "title" in xs[j] && "cve" in xs[j]
    ensures ExploitLines(xs).failure == None ==>
      && |ExploitLines(xs).lines| == |xs|
      && forall j :: 0 <= j < |xs| ==>
           ExploitLines(xs).lines[j] == "\t\t" + Show(xs[j]["title"]) + " (" + Show(xs[j]["cve"]) + ")"
  {
    if xs != [] {
      var init := xs[..|xs| - 1];
      ExploitLinesContents(init);
      assert forall j :: 0 <= j < |init| ==> init[j] == xs[j];
    }
  }

  /** When a result's block is printed without an exception, and what it
      holds: the header, the OS and SSL lines with "Unknown" for a missing
      entry, the Banner line with "Unknown" when 'data' or its 'product' is
      missing, and a vulnerabilities section, one line per exploit in list
      order, exactly when enrichment is on and the lookup found exploits. */
  lemma BlockContents(result: Record, hosts: map<Value, Host>, exploits: map<Value, seq<Record>>, exploit: bool)
    ensures Block(result, hosts, exploits, exploit).failure == None <==>
      && "ip_str" in result
      && result["ip_str"] in hosts
      && "org" in hosts[result["ip_str"]].attrs
      && !hosts[result["ip_str"]].data.NotDict?
      && (exploit ==> result["ip_str"] in exploits
                      && forall j :: 0 <= j < |exploits[result["ip_str"]]| ==>
                           "title" in exploits[result["ip_str"]][j] && "cve" in exploits[result["ip_str"]][j])
    ensures Block(result, hosts, exploits, exploit).failure == None ==>
      var lines := Block(result, hosts, exploits, exploit).lines;
      var ip := result["ip_str"];
      var host := hosts[ip];
      && |lines| >= 4
      && lines[0] == Show(ip) + " (" + Show(host.attrs["org"]) + "):"
      && lines[1] == "\tOS:  " + (if "os" in host.attrs then Show(host.attrs["os"]) else "Unknown")
      && lines[2] == "\tSSL:  " + (if "ssl" in host.attrs then Show(host.attrs["ssl"]) else "Unknown")
      && lines[3] == "\tBanner:  " + (if host.data.Fields? && "product" in host.data.entries
                                       then Show(host.data.entries["product"]) else "Unknown")
      && (|lines| > 4 <==> exploit && exploits[ip] != [])
      && (|lines| > 4 ==>
            && lines[4] == VulnerabilitiesLine
            && |lines| == 5 + |exploits[ip]|
            && forall j :: 0 <= j < |exploits[ip]| ==>
                 lines[5 + j] == "\t\t" + Show(exploits[ip][j]["title"]) + " (" + Show(exploits[ip][j]["cve"]) + ")")
  {
    if "ip_str" in result && result["ip_str"] in hosts && result["ip_str"] in exploits {
      ExploitLinesContents(exploits[result["ip_str"]]);
    }
  }

  /** A "Vulnerabilities:" line appears in a result's block exactly when
      enrichment is on and the exploit lookup found something. */
  lemma VulnerabilitiesIff(result: Record, hosts: map<Value, Host>, exploits: map<Value, seq<Record>>, exploit: bool)
    requires Block(result, hosts, exploits, exploit).failure == None
    ensures "ip_str" in result
    ensures VulnerabilitiesLine in Block(result, hosts, exploits, exploit).lines
        <==> exploit && result["ip_str"] in exploits && exploits[result["ip_str"]] != []
  {
    BlockContents(result, hosts, exploits, exploit);
    var lines := Block(result, hosts, exploits, exploit).lines;
    var v := VulnerabilitiesLine;
    assert |v| == 17 && v[1] == 'V' && v[15] == 's';
    forall k | 0 <= k < |lines| && k != 4
      ensures lines[k] != v
    {
      if k == 0 {
        if |lines[0]| == 17 {
          assert lines[0][15] == ')';
        }
      } else if k == 1 {
        assert lines[1][1] == 'O';
      } else if k == 2 {
        assert lines[2][1] == 'S';
      } else if k == 3 {
        assert lines[3][1] == 'B';
      } else {
        var xs := exploits[result["ip_str"]];
        var j := k - 5;
        assert lines[5 + j] == "\t\t" + Show(xs[j]["title"]) + " (" + Show(xs[j]["cve"]) + ")";
        assert lines[k][1] == '\t';
      }
    }
  }

  /** All the lines of some blocks, in order. */
  function Flatten(blocks: seq<seq<string>>): seq<string> {
    if blocks == [] then [] else Flatten(blocks[..|blocks| - 1]) + blocks[|blocks| - 1]
  }

  function Blocks(results: seq<Record>, hosts: map<Value, Host>, exploits: map<Value, seq<Record>>, exploit: bool): (b: seq<seq<string>>)
    ensures |b| == |results|
  {
    seq(|results|, i requires 0 <= i < |results| => Block(results[i], hosts, exploits, exploit).lines)
  }

  /** The run prints every block without an exception exactly when each
      result's block does, and then its output is the results' blocks, one
      per result, in the results' order. */
  lemma {:induction false} RenderAllBlocks(results: seq<Record>, hosts: map<Value, Host>, exploits: map<Value, seq<Record>>, exploit: bool)
    ensures RenderAll(results, hosts, exploits, exploit).failure == None <==>
      forall i :: 0 <= i < |results| ==> Block(results[i], hosts, exploits, exploit).failure == None
    ensures RenderAll(results, hosts, exploits, exploit).failure == None ==>
      RenderAll(results, hosts, exploits, exploit).lines == Flatten(Blocks(results, hosts, exploits, exploit))
  {
    if results != [] {
      var init := results[..|results| - 1];
      RenderAllBlocks(init, hosts, exploits, exploit);
      assert forall i :: 0 <= i < |init| ==> init[i] == results[i];
      assert Blocks(results, hosts, exploits, exploit)[..|init|] == Blocks(init, hosts, exploits, exploit);
    }
  }

  /** The first result whose block raises ends the run: the blocks before it
      are printed in full, then its own block up to the exception, and
      nothing for the results after it. */
  lemma RenderAllFirstFailure(results: seq<Record>, k: nat, hosts: map<Value, Host>, exploits: map<Value, seq<Record>>, exploit: bool)
    requires k < |results| && Block(results[k], hosts, exploits, exploit).failure.Some?
    requires forall j :: 0 <= j < k ==> Block(results[j], hosts, exploits, exploit).failure == None
    ensures RenderAll(results, hosts, exploits, exploit)
         == Printed(Flatten(Blocks(results[..k], hosts, exploits, exploit)) + Block(results[k], hosts, exploits, exploit).lines,
                    Block(results[k], hosts, exploits, exploit).failure)
  {
    RenderAllBlocks(results[..k], hosts, exploits, exploit);
    RenderAllStep(results, k, hosts, exploits, exploit);
    RenderAllStops(results, k + 1, hosts, exploits, exploit);
  }

  /** Lines 53-54 as the program runs them. The loop variable is the name
      `exploit` itself, so the loop rebinds what line 49 tests for the next
      result; a printed entry has a 'title', so it is never empty and the
      test keeps its value. */
  method PrintExploits(xs: seq<Record>, exploitName: Binding) returns (printed: seq<string>, failure: Option<Error>, after: Binding)
    requires Truthy(exploitName)
    ensures Printed(printed, failure) == ExploitLines(xs)
    ensures failure == None ==> Truthy(after)
  {
    printed, failure, after := [], None, exploitName;
    var j := 0;
    while j < |xs|
      invariant 0 <= j <= |xs|
      invariant ExploitLines(xs[..j]) == Printed(printed, None)
      invariant Truthy(after)
    {
      ExploitLinesStep(xs, j);
      after := Entry(xs[j]);
      var e := xs[j];
      if "title" !in e {
        failure := Some(KeyError("title"));
        ExploitLinesStops(xs, j + 1);
        return;
      }
      if "cve" !in e {
        failure := Some(KeyError("cve"));
        ExploitLinesStops(xs, j + 1);
        return;
      }
      printed := printed + ["\t\t" + Show(e["title"]) + " (" + Show(e["cve"]) + ")"];
      j := j + 1;
    }
    assert xs[..j] == xs;
  }

  /** Lines 42-54 for one result as the program runs them. */
  method PrintBlock(result: Record, hosts: map<Value, Host>, exploits: map<Value, seq<Record>>, exploitName: Binding)
    returns (printed: seq<string>, failure: Option<Error>, after: Binding)
    ensures Printed(printed, failure) == Block(result, hosts, exploits, Truthy(exploitName))
    ensures failure == None ==> Truthy(after) == Truthy(exploitName)
  {
    printed, failure, after := [], None, exploitName;
    if "ip_str" !in result {
      failure := Some(KeyError("ip_str"));
      return;
    }
    var ip := result["ip_str"];
    if ip !in hosts {
      failure := Some(LookupFailed(ip));
      return;
    }
    var host := hosts[ip];
    if "org" !in host.attrs {
      failure := Some(KeyError("org"));
      return;
    }
    printed := printed + [Header(ip, host.attrs["org"])];
    printed := printed + [OsLine(host)];
    printed := printed + [SslLine(host)];
    if host.data.NotDict? {
      failure := Some(AttributeError);
      return;
    }
    printed := printed + [BannerLine(host.data)];
    if Truthy(exploitName) {
      if ip !in exploits {
        failure := Some(LookupFailed(ip));
        return;
      }
      var xs := exploits[ip];
      if xs != [] {
        printed := printed + [VulnerabilitiesLine];
        var found;
        found, failure, after := PrintExploits(xs, exploitName);
        printed := printed + found;
      }
    }
  }

  /** Lines 41-54 as the program runs them, writing to standard output line
      by line; a lookup that raises or a missing key ends the run with what
      was printed so far. */
  method PrintResults(results: seq<Record>, hosts: map<Value, Host>, exploits: map<Value, seq<Record>>, exploit: bool)
    returns (lines: seq<string>, failure: Option<Error>)
    ensures Printed(lines, failure) == RenderAll(results, hosts, exploits, exploit)
  {
    var exploitName := Flag(exploit);
    lines, failure := [], None;
    var i := 0;
    while i < |results|
      invariant 0 <= i <= |results|
      invariant RenderAll(results[..i], hosts, exploits, exploit) == Printed(lines, None)
      invariant failure == None
      invariant Truthy(exploitName) == exploit
    {
      RenderAllStep(results, i, hosts, exploits, exploit);
      var printed;
      printed, failure, exploitName := PrintBlock(results[i], hosts, exploits, exploitName);
      lines := lines + printed;
      if failure.Some? {
        RenderAllStops(results, i + 1, hosts, exploits, exploit);
        return;
      }
      i := i + 1;
    }
    assert results[..i] == results;
  }
}
