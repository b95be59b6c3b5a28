/**
 * The scan orchestrator of the scanner (main): collects the files under the
 * root, scans them one after the other, keeps the results of the files that
 * scanned without error, and decides the exit code of the build step.
 *
 * The remote service is a parameter: `service(path)` is what the service
 * answers for the file at `path`.
 */
module Orchestrator {
  import opened Wrappers
  import opened Collector
  import opened Analysis

  /** The results of the files that scanned without error, in file order. */
  function Successes(files: seq<string>, service: string -> ServiceReply): seq<FileResult>
  {
    if files == [] then []
    else
      var last := files[|files| - 1];
      var r := ScanFile(last, service(last));
      Successes(files[..|files| - 1], service) + (if r.Success? then [r.value] else [])
  }

  /** Some result has at least one finding. */
  predicate HasFindings(results: seq<FileResult>)
  {
    exists k :: 0 <= k < |results| && |results[k].vulnerabilities| > 0
  }

  /**
   * main: walks the root, scans each file in turn, appends each successful
   * result and raises the flag when it has findings; a file whose scan throws is
   * skipped and the loop goes on. The exit code is 1 when the flag is set and 0
   * (a normal exit) otherwise. The results are not persisted: that step is
   * disabled.
   */
  method RunScan(root: string, listing: seq<Entry>, service: string -> ServiceReply)
    returns (results: seq<FileResult>, hasVulnerabilities: bool, exitCode: int)
    ensures results == Successes(KeptPaths(Walk(root, listing)), service)
    ensures hasVulnerabilities <==> HasFindings(results)
    ensures exitCode == (if hasVulnerabilities then 1 else 0)
  {
    var files := GetAllFilesInFolder(root, listing);
    results := [];
    hasVulnerabilities := false;
    for i := 0 to |files|
      invariant results == Successes(files[..i], service)
      invariant hasVulnerabilities <==> HasFindings(results)
    {
      var result := ScanFile(files[i], service(files[i]));
      SuccessesStep(files, i, service);
      if result.Success? {
        HasFindingsAppend(results, result.value);
        results := results + [result.value];
        if |result.value.vulnerabilities| > 0 {
          hasVulnerabilities := true;
        }
      }
    }
    assert files[..|files|] == files;
    exitCode := if hasVulnerabilities then 1 else 0;
  }

  lemma SuccessesStep(files: seq<string>, i: nat, service: string -> ServiceReply)
    requires i < |files|
    ensures var r := ScanFile(files[i], service(files[i]));
      Successes(files[..i + 1], service) == Successes(files[..i], service) + (if r.Success? then [r.value] else [])
  {
    assert files[..i + 1][..i] == files[..i];
  }

  lemma HasFindingsAppend(results: seq<FileResult>, r: FileResult)
    ensures HasFindings(results + [r]) <==> HasFindings(results) || |r.vulnerabilities| > 0
  {
    if HasFindings(results) {
      var k :| 0 <= k < |results| && |results[k].vulnerabilities| > 0;
      assert (results + [r])[k] == results[k];
    }
    if |r.vulnerabilities| > 0 {
      assert (results + [r])[|results|] == r;
    }
    if HasFindings(results + [r]) {
      var k :| 0 <= k < |results + [r]| && |(results + [r])[k].vulnerabilities| > 0;
      if k < |results| {
        assert (results + [r])[k] == results[k];
      }
    }
  }

  /** Scanning a concatenation of file lists yields the concatenation of the results. */
  lemma {:induction false} SuccessesAppend(a: seq<string>, b: seq<string>, service: string -> ServiceReply)
    ensures Successes(a + b, service) == Successes(a, service) + Successes(b, service)
    decreases |b|
  {
    if b == [] {
      assert a + b == a;
    } else {
      var b' := b[..|b| - 1];
      assert (a + b)[..|a + b| - 1] == a + b';
      SuccessesAppend(a, b', service);
    }
  }

  /** A file whose scan throws is left out, and the files after it are scanned as if it were not there. */
  lemma FailedFileIsSkipped(before: seq<string>, f: string, after: seq<string>, service: string -> ServiceReply)
    requires ScanFile(f, service(f)).Failure?
    ensures Successes(before + [f] + after, service) == Successes(before, service) + Successes(after, service)
  {
    assert Successes([f], service) == [] by {
      assert [f][..0] == [];
    }
    SuccessesAppend(before + [f], after, service);
    SuccessesAppend(before, [f], service);
  }

  /**
   * The results are exactly the successful scans: every result is the successful
   * scan of some file of the list, and every file that scans successfully has
   * its result in the list.
   */
  lemma SuccessesExactly(files: seq<string>, service: string -> ServiceReply, r: FileResult)
    ensures r in Successes(files, service) <==>
      exists i :: 0 <= i < |files| && ScanFile(files[i], service(files[i])) == Success(r)
  {
    if r in Successes(files, service) {
      SuccessHasFile(files, service, r);
    }
    if exists i :: 0 <= i < |files| && ScanFile(files[i], service(files[i])) == Success(r) {
      var i :| 0 <= i < |files| && ScanFile(files[i], service(files[i])) == Success(r);
      SuccessfulFileIsKept(files, service, i);
    }
  }

  lemma {:induction false} SuccessHasFile(files: seq<string>, service: string -> ServiceReply, r: FileResult)
    requires r in Successes(files, service)
    ensures exists i :: 0 <= i < |files| && ScanFile(files[i], service(files[i])) == Success(r)
  {
    var init := files[..|files| - 1];
    var last := files[|files| - 1];
    var outcome := ScanFile(last, service(last));
    if r in Successes(init, service) {
      SuccessHasFile(init, service, r);
      var i :| 0 <= i < |init| && ScanFile(init[i], service(init[i])) == Success(r);
      assert files[i] == init[i];
    } else {
      assert outcome == Success(r);
      assert files[|files| - 1] == last;
    }
  }

  lemma {:induction false} SuccessfulFileIsKept(files: seq<string>, service: string -> ServiceReply, i: nat)
    requires i < |files| && ScanFile(files[i], service(files[i])).Success?
    ensures ScanFile(files[i], service(files[i])).value in Successes(files, service)
  {
    var init := files[..|files| - 1];
    if i < |init| {
      assert init[i] == files[i];
      SuccessfulFileIsKept(init, service, i);
    }
  }

  /** Each result is labelled with the path of the file it came from. */
  lemma ResultsComeFromFiles(files: seq<string>, service: string -> ServiceReply)
    ensures forall r :: r in Successes(files, service) ==> r.file in files
  {
    forall r | r in Successes(files, service) ensures r.file in files {
      SuccessesExactly(files, service, r);
    }
  }

  /** The report never has more results than there were files. */
  lemma {:induction false} SuccessesLength(files: seq<string>, service: string -> ServiceReply)
    ensures |Successes(files, service)| <= |files|
  {
    if files != [] {
      SuccessesLength(files[..|files| - 1], service);
    }
  }
}
