/**
 * The report renderer (generateHtml): one pass over the scan results that emits
 * a header block per file and a detail block per finding, and tallies the
 * findings by severity bucket and by type for the two charts.
 *
 * In the page the tallies are kept by script fragments emitted once per
 * finding, which run in the order they were emitted; the model performs each
 * increment where its fragment is emitted. The HTML and chart text is not
 * modelled, only what it shows.
 */
module Report {
  import opened Wrappers
  import opened Analysis
  import Orchestrator

  /** The severities a block can show; the renderer only ever uses `High`. */
  datatype Severity = High | Medium | Low

  /** The severity given to every finding. */
  const FindingSeverity: Severity := High

  /** The label a detail block shows for a severity. */
  function SeverityLabel(severity: Severity): string
  {
    match severity
    case High => "High"
    case Medium => "Medium"
    case Low => "Low"
  }

  /** The style class of a detail block. */
  function ColorClass(severity: Severity): string
  {
    if severity == High then "critical" else if severity == Medium then "severe" else "moderate"
  }

  /** The severity tally of the bar chart: its buckets Critical, Medium and Low. */
  datatype SeverityData = SeverityData(critical: nat, medium: nat, low: nat)

  /** One increment of the bucket of a severity: "High" counts as Critical. */
  function Bump(data: SeverityData, severity: Severity): SeverityData
  {
    match severity
    case High => data.(critical := data.critical + 1)
    case Medium => data.(medium := data.medium + 1)
    case Low => data.(low := data.low + 1)
  }

  /** One block of the details section of the page. */
  datatype Block =
    | FileHeader(file: string)
    | Detail(vulnType: string, severity: string, line: JsonValue, code: JsonValue, fix: JsonValue, colorClass: string)

  /** What the page shows, less its markup and chart styling. */
  datatype Page = Page(totalFiles: nat, severityData: SeverityData, typeCounts: map<string, nat>, details: seq<Block>)

  /**
   * The detail block of one finding: its type, severity "High" in class
   * "critical", its line, the vulnerable code or "N/A", and the fix.
   */
  function DetailOf(v: Finding): (b: Block)
    ensures b.Detail? && b.vulnType == v.vulnType && b.line == v.line && b.fix == v.fix
    ensures b.severity == "High" && b.colorClass == "critical"
    ensures Truthy(v.original) ==> b.code == v.original
    ensures !Truthy(v.original) ==> b.code == NotAvailable
  {
    var severity := FindingSeverity;
    Detail(v.vulnType, SeverityLabel(severity), v.line, OrElse(v.original, NotAvailable), v.fix, ColorClass(severity))
  }

  /** The detail blocks of a list of findings, one per finding, in order. */
  function DetailsOf(vs: seq<Finding>): (ds: seq<Block>)
    ensures |ds| == |vs|
    ensures forall k :: 0 <= k < |vs| ==> ds[k] == DetailOf(vs[k])
  {
    if vs == [] then [] else DetailsOf(vs[..|vs| - 1]) + [DetailOf(vs[|vs| - 1])]
  }

  /** Every finding of every result, in result order and then finding order. */
  function AllFindings(rs: seq<FileResult>): seq<Finding>
  {
    if rs == [] then [] else AllFindings(rs[..|rs| - 1]) + rs[|rs| - 1].vulnerabilities
  }

  /** The details section: for each result its header, then the blocks of its findings. */
  function BlocksOf(rs: seq<FileResult>): seq<Block>
  {
    if rs == [] then []
    else
      var r := rs[|rs| - 1];
      BlocksOf(rs[..|rs| - 1]) + [FileHeader(r.file)] + DetailsOf(r.vulnerabilities)
  }

  /** `typeCounts[t] = (typeCounts[t] || 0) + 1` */
  function AddType(m: map<string, nat>, t: string): map<string, nat>
  {
    m[t := (if t in m then m[t] else 0) + 1]
  }

  /** The type tally the page's script builds, one increment per finding. */
  function Tally(fs: seq<Finding>): map<string, nat>
  {
    if fs == [] then map[] else AddType(Tally(fs[..|fs| - 1]), fs[|fs| - 1].vulnType)
  }

  /** The keys of the type tally in the order they were first assigned (the pie chart's labels). */
  function Labels(fs: seq<Finding>): seq<string>
  {
    if fs == [] then []
    else
      var init := Labels(fs[..|fs| - 1]);
      var t := fs[|fs| - 1].vulnType;
      if t in init then init else init + [t]
  }

  /** The sum of the tally's values over the given keys (the pie chart's total). */
  function Sum(keys: seq<string>, m: map<string, nat>): nat
    requires forall k :: k in keys ==> k in m
  {
    if keys == [] then 0 else m[keys[0]] + Sum(keys[1..], m)
  }

  /** The page shows the given results: everything generateHtml computes from them. */
  ghost predicate Shows(page: Page, results: seq<FileResult>)
  {
    && page.totalFiles == |results|
    && page.details == BlocksOf(results)
    && page.severityData == SeverityData(|AllFindings(results)|, 0, 0)
    && page.typeCounts == Tally(AllFindings(results))
  }

  /**
   * generateHtml: the total file count, then for each result its header and,
   * for each of its findings, a detail block and one increment of the Critical
   * bucket and of the finding's type.
   */
  method GenerateHtml(results: seq<FileResult>) returns (page: Page)
    ensures Shows(page, results)
    ensures forall t :: t in page.typeCounts <==> t in TypesOf(AllFindings(results))
    ensures forall t :: t in page.typeCounts ==> page.typeCounts[t] == multiset(TypesOf(AllFindings(results)))[t]
  {
    var totalFiles := |results|;
    var severityData := SeverityData(0, 0, 0);
    var typeCounts: map<string, nat> := map[];
    var details: seq<Block> := [];
    for i := 0 to |results|
      invariant details == BlocksOf(results[..i])
      invariant severityData == SeverityData(|AllFindings(results[..i])|, 0, 0)
      invariant typeCounts == Tally(AllFindings(results[..i]))
    {
      ghost var done := AllFindings(results[..i]);
      var result := results[i];
      details := details + [FileHeader(result.file)];
      ghost var headed := details;
      var vs := result.vulnerabilities;
      assert done + vs[..0] == done;
      for j := 0 to |vs|
        invariant details == headed + DetailsOf(vs[..j])
        invariant severityData == SeverityData(|done| + j, 0, 0)
        invariant typeCounts == Tally(done + vs[..j])
      {
        var v := vs[j];
        var severity := FindingSeverity;
        var colorClass := ColorClass(severity);
        DetailsSnoc(vs, j);
        details := details + [Detail(v.vulnType, SeverityLabel(severity), v.line, OrElse(v.original, NotAvailable), v.fix, colorClass)];
        severityData := Bump(severityData, severity);
        TallySnoc(done, vs, j);
        typeCounts := AddType(typeCounts, v.vulnType);
      }
      assert vs[..|vs|] == vs;
      ResultsSnoc(results, i);
      assert |AllFindings(results[..i + 1])| == |done| + |vs|;
    }
    assert results[..|results|] == results;
    page := Page(totalFiles, severityData, typeCounts, details);
    TallyCounts(AllFindings(results));
  }

  lemma ResultsSnoc(rs: seq<FileResult>, i: nat)
    requires i < |rs|
    ensures AllFindings(rs[..i + 1]) == AllFindings(rs[..i]) + rs[i].vulnerabilities
    ensures BlocksOf(rs[..i + 1]) == BlocksOf(rs[..i]) + [FileHeader(rs[i].file)] + DetailsOf(rs[i].vulnerabilities)
  {
    assert rs[..i + 1][..i] == rs[..i];
  }

  lemma TallySnocLast(q: seq<Finding>, v: Finding)
    ensures Tally(q + [v]) == AddType(Tally(q), v.vulnType)
    ensures Labels(q + [v]) == if v.vulnType in Labels(q) then Labels(q) else Labels(q) + [v.vulnType]
  {
    assert (q + [v])[..|q|] == q;
  }

  lemma DetailsSnoc(vs: seq<Finding>, j: nat)
    requires j < |vs|
    ensures DetailsOf(vs[..j + 1]) == DetailsOf(vs[..j]) + [DetailOf(vs[j])]
  {
    assert vs[..j + 1][..j] == vs[..j];
  }

  lemma TallySnoc(done: seq<Finding>, vs: seq<Finding>, j: nat)
    requires j < |vs|
    ensures Tally(done + vs[..j + 1]) == AddType(Tally(done + vs[..j]), vs[j].vulnType)
    ensures |done + vs[..j + 1]| == |done + vs[..j]| + 1
  {
    var q := done + vs[..j + 1];
    assert q[..|q| - 1] == done + vs[..j];
  }

  /**
   * The type tally counts each type exactly as often as findings have it, and
   * holds no other key.
   */
  lemma {:induction false} TallyCounts(fs: seq<Finding>)
    ensures forall t :: t in Tally(fs) <==> t in TypesOf(fs)
    ensures forall t :: t in Tally(fs) ==> Tally(fs)[t] == multiset(TypesOf(fs))[t]
  {
    if fs != [] {
      var init := fs[..|fs| - 1];
      var x := fs[|fs| - 1];
      TallyCounts(init);
      assert fs == init + [x];
      TypesOfAppend(init, [x]);
      assert TypesOf([x]) == [x.vulnType];
    }
  }

  /** The labels are the tally's keys, each once. */
  lemma {:induction false} LabelsAreKeys(fs: seq<Finding>)
    ensures forall t :: t in Labels(fs) <==> t in Tally(fs)
    ensures forall a, b :: 0 <= a < b < |Labels(fs)| ==> Labels(fs)[a] != Labels(fs)[b]
  {
    if fs != [] {
      LabelsAreKeys(fs[..|fs| - 1]);
    }
  }

  lemma {:induction false} SumAppend(keys: seq<string>, t: string, m: map<string, nat>)
    requires forall k :: k in keys ==> k in m
    requires t in m
    ensures Sum(keys + [t], m) == Sum(keys, m) + m[t]
  {
    if keys == [] {
      assert [t][1..] == [];
    } else {
      assert (keys + [t])[1..] == keys[1..] + [t];
      SumAppend(keys[1..], t, m);
    }
  }

  /** Changing the value of a key that is not summed leaves the sum unchanged. */
  lemma {:induction false} SumUpdate(keys: seq<string>, m: map<string, nat>, t: string, v: nat)
    requires forall k :: k in keys ==> k in m
    requires t !in keys
    ensures Sum(keys, m[t := v]) == Sum(keys, m)
  {
    if keys != [] {
      SumUpdate(keys[1..], m, t, v);
    }
  }

  lemma {:induction false} SumBump(keys: seq<string>, m: map<string, nat>, t: string)
    requires forall k :: k in keys ==> k in m
    requires forall a, b :: 0 <= a < b < |keys| ==> keys[a] != keys[b]
    requires t in keys
    ensures Sum(keys, m[t := m[t] + 1]) == Sum(keys, m) + 1
  {
    if keys[0] == t {
      assert t !in keys[1..] by {
        forall k | 0 <= k < |keys[1..]| ensures keys[1..][k] != t {
          assert keys[1..][k] == keys[k + 1];
        }
      }
      SumUpdate(keys[1..], m, t, m[t] + 1);
    } else {
      SumBump(keys[1..], m, t);
    }
  }

  /**
   * The values of the type tally add up to the number of findings, which is
   * the Critical count: the pie chart's total equals the bar chart's.
   */
  lemma {:induction false} TypeCountsSumToTotal(fs: seq<Finding>)
    ensures forall k :: k in Labels(fs) ==> k in Tally(fs)
    ensures Sum(Labels(fs), Tally(fs)) == |fs|
  {
    LabelsAreKeys(fs);
    if fs != [] {
      var init := fs[..|fs| - 1];
      var t := fs[|fs| - 1].vulnType;
      TypeCountsSumToTotal(init);
      LabelsAreKeys(init);
      var m := Tally(init);
      if t in Labels(init) {
        SumBump(Labels(init), m, t);
      } else {
        SumUpdate(Labels(init), m, t, 1);
        SumAppend(Labels(init), t, m[t := 1]);
      }
    }
  }

  /** The header files of a list of blocks, in order. */
  function HeaderFiles(bs: seq<Block>): seq<string>
  {
    if bs == [] then []
    else HeaderFiles(bs[..|bs| - 1]) + (if bs[|bs| - 1].FileHeader? then [bs[|bs| - 1].file] else [])
  }

  /** The detail blocks of a list of blocks, in order. */
  function DetailBlocks(bs: seq<Block>): seq<Block>
  {
    if bs == [] then []
    else DetailBlocks(bs[..|bs| - 1]) + (if bs[|bs| - 1].Detail? then [bs[|bs| - 1]] else [])
  }

  /** The paths of a list of results, in order. */
  function FilesOf(rs: seq<FileResult>): seq<string>
  {
    if rs == [] then [] else FilesOf(rs[..|rs| - 1]) + [rs[|rs| - 1].file]
  }

  lemma {:induction false} ProjectionsAppend(a: seq<Block>, b: seq<Block>)
    ensures HeaderFiles(a + b) == HeaderFiles(a) + HeaderFiles(b)
    ensures DetailBlocks(a + b) == DetailBlocks(a) + DetailBlocks(b)
    decreases |b|
  {
    if b == [] {
      assert a + b == a;
    } else {
      var b' := b[..|b| - 1];
      assert (a + b)[..|a + b| - 1] == a + b';
      ProjectionsAppend(a, b');
    }
  }

  lemma {:induction false} DetailsProjections(vs: seq<Finding>)
    ensures HeaderFiles(DetailsOf(vs)) == []
    ensures DetailBlocks(DetailsOf(vs)) == DetailsOf(vs)
  {
    if vs != [] {
      var init := vs[..|vs| - 1];
      DetailsProjections(init);
      ProjectionsAppend(DetailsOf(init), [DetailOf(vs[|vs| - 1])]);
      assert [DetailOf(vs[|vs| - 1])][..0] == [];
    }
  }

  lemma {:induction false} DetailsAppend(a: seq<Finding>, b: seq<Finding>)
    ensures DetailsOf(a + b) == DetailsOf(a) + DetailsOf(b)
  {
    assert |DetailsOf(a + b)| == |DetailsOf(a) + DetailsOf(b)|;
    forall k | 0 <= k < |a + b| ensures DetailsOf(a + b)[k] == (DetailsOf(a) + DetailsOf(b))[k] {
      if k >= |a| {
        assert (a + b)[k] == b[k - |a|];
      }
    }
  }

  /**
   * The details section holds one header per result, in result order, and one
   * detail block per finding, in result order and then finding order.
   */
  lemma {:induction false} BlocksFollowResults(rs: seq<FileResult>)
    ensures HeaderFiles(BlocksOf(rs)) == FilesOf(rs)
    ensures DetailBlocks(BlocksOf(rs)) == DetailsOf(AllFindings(rs))
  {
    if rs != [] {
      var init := rs[..|rs| - 1];
      var r := rs[|rs| - 1];
      BlocksFollowResults(init);
      ProjectionsAppend(BlocksOf(init) + [FileHeader(r.file)], DetailsOf(r.vulnerabilities));
      ProjectionsAppend(BlocksOf(init), [FileHeader(r.file)]);
      assert [FileHeader(r.file)][..0] == [];
      DetailsProjections(r.vulnerabilities);
      DetailsAppend(AllFindings(init), r.vulnerabilities);
    }
  }

  /** Every detail block has severity "High" and class "critical"; "severe" and "moderate" never occur. */
  lemma {:induction false} OnlyCriticalBlocks(rs: seq<FileResult>)
    ensures forall b :: b in BlocksOf(rs) && b.Detail? ==> b.severity == "High" && b.colorClass == "critical"
  {
    if rs != [] {
      OnlyCriticalBlocks(rs[..|rs| - 1]);
    }
  }

  /** A run fails the build exactly when the report would show a non-zero Critical count. */
  lemma {:induction false} ExitCodeMatchesCritical(rs: seq<FileResult>)
    ensures Orchestrator.HasFindings(rs) <==> |AllFindings(rs)| > 0
  {
    if rs != [] {
      var init := rs[..|rs| - 1];
      ExitCodeMatchesCritical(init);
      Orchestrator.HasFindingsAppend(init, rs[|rs| - 1]);
      assert rs == init + [rs[|rs| - 1]];
    }
  }

  /** The findings the scanner produces carry no code excerpt, so their blocks show "N/A". */
  lemma ScannedFindingsShowNoCode(path: string, reply: ServiceReply)
    requires ScanFile(path, reply).Success?
    ensures forall b :: b in DetailsOf(ScanFile(path, reply).value.vulnerabilities) ==> b.code == NotAvailable
  {
    var vs := ScanFile(path, reply).value.vulnerabilities;
    forall b | b in DetailsOf(vs) ensures b.code == NotAvailable {
      var k :| 0 <= k < |vs| && DetailsOf(vs)[k] == b;
    }
  }

  /**
   * The renderer's entry point: without the saved results it fails with exit
   * code 1 and no page; otherwise it renders them.
   */
  method RenderSavedResults(saved: Option<seq<FileResult>>) returns (exitCode: int, page: Option<Page>)
    ensures saved.None? ==> exitCode == 1 && page.None?
    ensures saved.Some? ==> exitCode == 0 && page.Some? && Shows(page.value, saved.value)
  {
    if saved.None? {
      return 1, None;
    }
    var p := GenerateHtml(saved.value);
    return 0, Some(p);
  }

  /** A file whose service reply lists no type contributes a header and nothing to either tally. */
  lemma FileWithoutTypesAddsNothing(rs: seq<FileResult>, path: string, lines: Option<seq<JsonValue>>, fix: JsonValue)
    ensures ScanFile(path, Replied(Some([]), lines, fix)).Success?
    ensures var r := ScanFile(path, Replied(Some([]), lines, fix)).value;
      && AllFindings(rs + [r]) == AllFindings(rs)
      && Tally(AllFindings(rs + [r])) == Tally(AllFindings(rs))
      && BlocksOf(rs + [r]) == BlocksOf(rs) + [FileHeader(path)]
  {
    var r := ScanFile(path, Replied(Some([]), lines, fix)).value;
    assert (rs + [r])[..|rs|] == rs;
  }

  /**
   * A report holding one file with three findings of one type (say "Injection")
   * and two of another (say "XSS"), interleaved, shows 5 in the Critical bucket,
   * 0 in Medium and Low, and the type tallies 3 and 2, labelled in order of
   * first occurrence.
   */
  lemma ExampleTallies(page: Page, file: string, a: Finding, b: Finding, c: Finding, d: Finding, e: Finding)
    requires a.vulnType == c.vulnType == d.vulnType
    requires b.vulnType == e.vulnType != a.vulnType
    requires Shows(page, [FileResult(file, [a, b, c, d, e])])
    ensures page.severityData == SeverityData(5, 0, 0)
    ensures page.typeCounts == map[a.vulnType := 3, b.vulnType := 2]
    ensures Labels([a, b, c, d, e]) == [a.vulnType, b.vulnType]
  {
    var q := [a, b, c, d, e];
    InterleavedTally(a, b, c, d, e);
    assert AllFindings([FileResult(file, q)]) == q by {
      assert [FileResult(file, q)][..0] == [];
    }
  }

  /** The type tally and labels of the interleaved findings of `ExampleTallies`. */
  lemma InterleavedTally(a: Finding, b: Finding, c: Finding, d: Finding, e: Finding)
    requires a.vulnType == c.vulnType == d.vulnType
    requires b.vulnType == e.vulnType != a.vulnType
    ensures Tally([a, b, c, d, e]) == map[a.vulnType := 3, b.vulnType := 2]
    ensures Labels([a, b, c, d, e]) == [a.vulnType, b.vulnType]
  {
    var i, x := a.vulnType, b.vulnType;
    var q1 := [] + [a];
    var q2 := q1 + [b];
    var q3 := q2 + [c];
    var q4 := q3 + [d];
    var q5 := q4 + [e];
    TallySnocLast([], a);
    TallySnocLast(q1, b);
    TallySnocLast(q2, c);
    TallySnocLast(q3, d);
    TallySnocLast(q4, e);
    assert Tally(q1) == map[i := 1] && Labels(q1) == [i];
    assert Tally(q2) == map[i := 1, x := 1] && Labels(q2) == [i, x];
    assert Tally(q3) == map[i := 2, x := 1];
    assert Tally(q4) == map[i := 3, x := 1];
    assert Tally(q5) == map[i := 3, x := 2];
    assert q5 == [a, b, c, d, e];
  }
}
