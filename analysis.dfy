/**
 * The analysis client of the scanner (scanFile): the three replies of the remote
 * service for one file are inputs here, and the client merges them by position
 * into the file's findings.
 */
module Analysis {
  import opened Wrappers

  /**
   * The JSON values a reply can carry where the client reads a line number, a
   * fix or a code excerpt; `JUndefined` is a field the reply did not have.
   */
  datatype JsonValue =
    | JUndefined
    | JNull
    | JBool(b: bool)
    | JNum(n: int)
    | JStr(s: string)

  /** JavaScript truthiness: undefined, null, false, 0 and "" are falsy. */
  predicate Truthy(v: JsonValue)
  {
    match v
    case JUndefined => false
    case JNull => false
    case JBool(b) => b
    case JNum(n) => n != 0
    case JStr(s) => s != ""
  }

  /** `v || d`: the value itself when it is truthy, the default otherwise. */
  function OrElse(v: JsonValue, d: JsonValue): JsonValue
  {
    if Truthy(v) then v else d
  }

  /** The sentinel shown where a reply has no usable value. */
  const NotAvailable: JsonValue := JStr("N/A")

  /** One reported issue. `original` is the vulnerable code, which the client never attaches. */
  datatype Finding = Finding(vulnType: string, line: JsonValue, fix: JsonValue, original: JsonValue)

  /** The findings of one scanned file. */
  datatype FileResult = FileResult(file: string, vulnerabilities: seq<Finding>)

  /**
   * What the service answered for one file: either the three payloads
   * (`vulnerability_types`, `vulnerable_lines`, `suggested_fix`; a payload without
   * the expected array is `None`), or an error (network failure, an unreadable
   * file or an answer that is not JSON) with its message.
   */
  datatype ServiceReply =
    | Replied(types: Option<seq<string>>, lines: Option<seq<JsonValue>>, fix: JsonValue)
    | Errored(message: string)

  /** `vulnerable_lines[i]`, which is undefined past the end of the array. */
  function LineEntry(lines: seq<JsonValue>, i: nat): JsonValue
  {
    if i < |lines| then lines[i] else JUndefined
  }

  /**
   * The positional merge: finding i has the i-th type, the i-th line or "N/A"
   * when that entry is missing or falsy, and the fix text shared by the whole file.
   */
  function MergeFindings(types: seq<string>, lines: seq<JsonValue>, fix: JsonValue): (fs: seq<Finding>)
    ensures |fs| == |types|
    ensures forall i :: 0 <= i < |fs| ==>
      && fs[i].vulnType == types[i]
      && fs[i].fix == fix
      && fs[i].original == JUndefined
      && (i < |lines| && Truthy(lines[i]) ==> fs[i].line == lines[i])
      && (i >= |lines| || !Truthy(lines[i]) ==> fs[i].line == NotAvailable)
  {
    seq(|types|, i requires 0 <= i < |types| =>
      Finding(types[i], OrElse(LineEntry(lines, i), NotAvailable), fix, JUndefined))
  }

  /** The message of the TypeError thrown when the types payload is missing. */
  const MissingTypesError: string := "Cannot read properties of undefined (reading 'map')"

  /** The message of the TypeError thrown when the lines payload is missing and there is a type. */
  const MissingLinesError: string := "Cannot read properties of undefined (reading '0')"

  /**
   * scanFile once the replies are in: a service error is thrown to the caller;
   * a reply without a type array throws when it is mapped; a reply without a
   * line array throws at the first type (and not at all when there is none);
   * otherwise the file's result is the merge, labelled with the file's path.
   */
  function ScanFile(path: string, reply: ServiceReply): (r: Result<FileResult, string>)
    ensures reply.Errored? ==> r == Failure(reply.message)
    ensures reply.Replied? ==>
      (r.Success? <==> reply.types.Some? && (reply.lines.Some? || reply.types.value == []))
    ensures r.Success? ==>
      && r.value.file == path
      && |r.value.vulnerabilities| == |reply.types.value|
      && r.value.vulnerabilities ==
         MergeFindings(reply.types.value, if reply.lines.Some? then reply.lines.value else [], reply.fix)
  {
    match reply
    case Errored(message) => Failure(message)
    case Replied(types, lines, fix) =>
      if types.None? then Failure(MissingTypesError)
      else if lines.None? && types.value != [] then Failure(MissingLinesError)
      else
        var ls := if lines.Some? then lines.value else [];
        Success(FileResult(path, MergeFindings(types.value, ls, fix)))
  }

  /** The types of a list of findings, in order. */
  function TypesOf(fs: seq<Finding>): (ts: seq<string>)
    ensures |ts| == |fs|
  {
    if fs == [] then [] else [fs[0].vulnType] + TypesOf(fs[1..])
  }

  /** The lines of a list of findings, in order. */
  function LinesOf(fs: seq<Finding>): (ls: seq<JsonValue>)
    ensures |ls| == |fs|
  {
    if fs == [] then [] else [fs[0].line] + LinesOf(fs[1..])
  }

  lemma {:induction false} TypesOfAppend(a: seq<Finding>, b: seq<Finding>)
    ensures TypesOf(a + b) == TypesOf(a) + TypesOf(b)
  {
    if a == [] {
      assert a + b == b;
    } else {
      assert (a + b)[1..] == a[1..] + b;
      TypesOfAppend(a[1..], b);
    }
  }

  /** Projecting the types back out of the merge gives the types payload. */
  lemma {:induction false} MergeKeepsTypes(types: seq<string>, lines: seq<JsonValue>, fix: JsonValue)
    ensures TypesOf(MergeFindings(types, lines, fix)) == types
  {
    var fs := MergeFindings(types, lines, fix);
    TypesOfAt(fs);
  }

  lemma {:induction false} TypesOfAt(fs: seq<Finding>)
    ensures forall i :: 0 <= i < |fs| ==> TypesOf(fs)[i] == fs[i].vulnType
  {
    if fs != [] {
      TypesOfAt(fs[1..]);
      forall i | 0 < i < |fs| ensures TypesOf(fs)[i] == fs[i].vulnType {
        assert fs[1..][i - 1] == fs[i];
      }
    }
  }

  lemma {:induction false} LinesOfAt(fs: seq<Finding>)
    ensures forall i :: 0 <= i < |fs| ==> LinesOf(fs)[i] == fs[i].line
  {
    if fs != [] {
      LinesOfAt(fs[1..]);
      forall i | 0 < i < |fs| ensures LinesOf(fs)[i] == fs[i].line {
        assert fs[1..][i - 1] == fs[i];
      }
    }
  }

  /**
   * When the service reports a truthy line for every type, the merge carries the
   * line payload through unchanged (cut to the number of types).
   */
  lemma MergeKeepsTruthyLines(types: seq<string>, lines: seq<JsonValue>, fix: JsonValue)
    requires |lines| >= |types|
    requires forall i :: 0 <= i < |types| ==> Truthy(lines[i])
    ensures LinesOf(MergeFindings(types, lines, fix)) == lines[..|types|]
  {
    LinesOfAt(MergeFindings(types, lines, fix));
  }

  /**
   * A file whose line payload is shorter than its type payload is scanned without
   * error, and each finding past the end of the line payload carries "N/A".
   */
  lemma ShortLinesBecomeNotAvailable(path: string, types: seq<string>, lines: seq<JsonValue>, fix: JsonValue)
    requires |lines| < |types|
    ensures ScanFile(path, Replied(Some(types), Some(lines), fix)).Success?
    ensures forall i :: |lines| <= i < |types| ==>
      ScanFile(path, Replied(Some(types), Some(lines), fix)).value.vulnerabilities[i].line == NotAvailable
  {
  }

  /** A reply of types ["Injection"], lines [3] and fix "use safeEval" gives one finding with those values. */
  lemma ExampleScan(path: string)
    ensures ScanFile(path, Replied(Some(["Injection"]), Some([JNum(3)]), JStr("use safeEval")))
      == Success(FileResult(path, [Finding("Injection", JNum(3), JStr("use safeEval"), JUndefined)]))
  {
    var fs := MergeFindings(["Injection"], [JNum(3)], JStr("use safeEval"));
    assert fs[0] == Finding("Injection", JNum(3), JStr("use safeEval"), JUndefined);
    assert fs == [fs[0]];
  }
}
