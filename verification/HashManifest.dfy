/** The digests of a GGUF file, printed one a line, and the check of a file
    against what was printed. */
module HashManifest {
  import opened Lists
  import opened Options
  import opened Text

  datatype Algorithm = Xxh64 | Sha1 | Sha256 | Uuid

  function Name(a: Algorithm): (s: string)
    ensures s != "" && SpaceFree(s) && NulFree(s) && |s| <= 8
  {
    match a
    case Xxh64 => "xxh64"
    case Sha1 => "sha1"
    case Sha256 => "sha256"
    case Uuid => "uuid"
  }

  lemma Names()
    ensures Name(Xxh64) == "xxh64" && Name(Sha1) == "sha1" && Name(Sha256) == "sha256" && Name(Uuid) == "uuid"
  {
  }

  // ----- what is hashed -------------------------------------------------------------

  /** The digests of one payload; what was not selected is empty. */
  datatype Values = Values(xxh64: string, sha1: string, sha256: string, uuid: string)
  {
    function Of(a: Algorithm): string {
      match a
      case Xxh64 => xxh64
      case Sha1 => sha1
      case Sha256 => sha256
      case Uuid => uuid
    }
  }

  datatype Flags = Flags(xxh64: bool, sha1: bool, sha256: bool, uuid: bool)
  {
    predicate Has(a: Algorithm) {
      match a
      case Xxh64 => xxh64
      case Sha1 => sha1
      case Sha256 => sha256
      case Uuid => uuid
    }

    predicate None() {
      !xxh64 && !sha1 && !sha256 && !uuid
    }
  }

  datatype Tensor = Tensor(name: string, values: Values)

  /** A file's tensors and whole payload, with every digest of each. */
  datatype File = File(tensors: seq<Tensor>, model: Values)

  /** gguf.File.Hash: the selected digests; a tensor has no UUID. */
  function Selected(values: Values, flags: Flags, tensor: bool): Values {
    Values(if flags.xxh64 then values.xxh64 else "", if flags.sha1 then values.sha1 else "",
           if flags.sha256 then values.sha256 else "", if flags.uuid && !tensor then values.uuid else "")
  }

  datatype Record = Record(algorithm: Algorithm, digest: string)

  /** records: the digests there are, in their order. */
  function Records(values: Values, includeUUID: bool): seq<Record> {
    OfDigest(Xxh64, values.xxh64, true) + OfDigest(Sha1, values.sha1, true) + OfDigest(Sha256, values.sha256, true)
    + OfDigest(Uuid, values.uuid, includeUUID)
  }

  function OfDigest(a: Algorithm, digest: string, included: bool): seq<Record> {
    if included && digest != "" then [Record(a, digest)] else []
  }

  /** A digest to print or to check, of what it names. */
  datatype Item = Item(record: Record, target: string, tensor: bool)

  function Targeted(records: seq<Record>, target: string, tensor: bool): (items: seq<Item>)
    ensures |items| == |records|
    ensures forall i :: 0 <= i < |items| ==> items[i] == Item(records[i], target, tensor)
  {
    if records == [] then [] else [Item(records[0], target, tensor)] + Targeted(records[1..], target, tensor)
  }

  function TensorItems(flags: Flags, input: string, tensors: seq<Tensor>): seq<Item> {
    if tensors == [] then []
    else OfTensor(flags, input, tensors[0]) + TensorItems(flags, input, tensors[1..])
  }

  function OfTensor(flags: Flags, input: string, tensor: Tensor): seq<Item> {
    Targeted(Records(Selected(tensor.values, flags, true), false), input + ":" + tensor.name, true)
  }

  function ModelItems(flags: Flags, input: string, file: File): seq<Item> {
    Targeted(Records(Selected(file.model, flags, false), flags.uuid), input, false)
  }

  /** The tensors' digests, unless they are left out, then the model's. */
  function Items(flags: Flags, noLayer: bool, input: string, file: File): seq<Item> {
    (if noLayer then [] else TensorItems(flags, input, file.tensors)) + ModelItems(flags, input, file)
  }

  // ----- what is printed --------------------------------------------------------------

  function Spaces(n: nat): (s: string)
    ensures |s| == n && forall i :: 0 <= i < |s| ==> s[i] == ' '
  {
    if n == 0 then "" else " " + Spaces(n - 1)
  }

  /** %-8s  %s  %s */
  function LineOf(item: Item): string {
    var name := Name(item.record.algorithm);
    name + (Spaces(8 - |name|) + ("  " + (item.record.digest + ("  " + item.target))))
  }

  function LinesOf(items: seq<Item>): (lines: seq<string>)
    ensures |lines| == |items|
    ensures forall i :: 0 <= i < |lines| ==> lines[i] == LineOf(items[i])
  {
    seq(|items|, i requires 0 <= i < |items| => LineOf(items[i]))
  }

  /** A line opens with the algorithm's name, eight characters wide. */
  lemma LineExactly(item: Item)
    ensures var column := match item.record.algorithm
                          case Xxh64 => "xxh64   "
                          case Sha1 => "sha1    "
                          case Sha256 => "sha256  "
                          case Uuid => "uuid    ";
            LineOf(item) == column + "  " + item.record.digest + "  " + item.target
  {
    var name := Name(item.record.algorithm);
    var pad := Spaces(8 - |name|);
    var column := match item.record.algorithm
                  case Xxh64 => "xxh64   "
                  case Sha1 => "sha1    "
                  case Sha256 => "sha256  "
                  case Uuid => "uuid    ";
    assert name + pad == column;
    var rest := item.record.digest + ("  " + item.target);
    assert name + (pad + ("  " + rest)) == (name + pad) + "  " + rest;
  }

  /** The item of one algorithm, if it is selected and there is a digest. */
  function One(selected: bool, a: Algorithm, digest: string, target: string, tensor: bool): seq<Item> {
    if selected && digest != "" then [Item(Record(a, digest), target, tensor)] else []
  }

  /** The digests of one thing, in the order of the algorithms: those selected that there
      are, and of a tensor no UUID. */
  lemma ItemsOfOne(values: Values, flags: Flags, target: string, tensor: bool)
    ensures Targeted(Records(Selected(values, flags, tensor), flags.uuid && !tensor), target, tensor)
         == One(flags.xxh64, Xxh64, values.xxh64, target, tensor) + One(flags.sha1, Sha1, values.sha1, target, tensor)
            + One(flags.sha256, Sha256, values.sha256, target, tensor)
            + One(flags.uuid && !tensor, Uuid, values.uuid, target, tensor)
  {
    var v, uuid := Selected(values, flags, tensor), flags.uuid && !tensor;
    TargetedFour(OfDigest(Xxh64, v.xxh64, true), OfDigest(Sha1, v.sha1, true), OfDigest(Sha256, v.sha256, true),
                 OfDigest(Uuid, v.uuid, uuid), target, tensor);
    TargetedOne(Xxh64, values.xxh64, v.xxh64, flags.xxh64, true, target, tensor);
    TargetedOne(Sha1, values.sha1, v.sha1, flags.sha1, true, target, tensor);
    TargetedOne(Sha256, values.sha256, v.sha256, flags.sha256, true, target, tensor);
    TargetedOne(Uuid, values.uuid, v.uuid, uuid, uuid, target, tensor);
  }

  lemma TargetedOne(a: Algorithm, digest: string, kept: string, selected: bool, wanted: bool, target: string,
                    tensor: bool)
    requires kept == (if selected then digest else "") && (selected ==> wanted)
    ensures Targeted(OfDigest(a, kept, wanted), target, tensor) == One(selected, a, digest, target, tensor)
  {
  }

  lemma TargetedFour(x: seq<Record>, y: seq<Record>, z: seq<Record>, u: seq<Record>, target: string, tensor: bool)
    ensures Targeted(x + y + z + u, target, tensor)
         == Targeted(x, target, tensor) + Targeted(y, target, tensor) + Targeted(z, target, tensor)
            + Targeted(u, target, tensor)
  {
    TargetedAppend(x + y + z, u, target, tensor);
    TargetedAppend(x + y, z, target, tensor);
    TargetedAppend(x, y, target, tensor);
  }

  lemma TargetedAppend(xs: seq<Record>, ys: seq<Record>, target: string, tensor: bool)
    ensures Targeted(xs + ys, target, tensor) == Targeted(xs, target, tensor) + Targeted(ys, target, tensor)
  {
  }

  /** A file lists its tensors in turn, each by the path, a colon and its name, and then itself. */
  lemma {:induction false} TensorItemsMore(flags: Flags, input: string, tensors: seq<Tensor>, tensor: Tensor)
    ensures TensorItems(flags, input, tensors + [tensor])
         == TensorItems(flags, input, tensors)
            + Targeted(Records(Selected(tensor.values, flags, true), false), input + ":" + tensor.name, true)
  {
    if tensors == [] {
      assert tensors + [tensor] == [tensor] && [tensor][1..] == [];
      assert TensorItems(flags, input, [tensor]) == OfTensor(flags, input, tensor) + [];
    } else {
      TensorItemsMore(flags, input, tensors[1..], tensor);
      assert (tensors + [tensor])[1..] == tensors[1..] + [tensor];
      Associates(OfTensor(flags, input, tensors[0]), TensorItems(flags, input, tensors[1..]),
                 OfTensor(flags, input, tensor));
    }
  }

  lemma ItemsInOrder(flags: Flags, noLayer: bool, input: string, file: File)
    ensures Items(flags, noLayer, input, file)
         == (if noLayer then [] else TensorItems(flags, input, file.tensors))
            + Targeted(Records(Selected(file.model, flags, false), flags.uuid), input, false)
  {
  }

  ghost predicate Word(s: string) {
    s != "" && SpaceFree(s)
  }

  /** Text made of separators. */
  ghost predicate Gap(s: string, cut: Cut) {
    s != "" && forall i :: 0 <= i < |s| ==> cut.Ends(s[i])
  }

  /** A word after a gap is the first of the words that follow. */
  lemma WordsOfGapAndWord(gap: string, w: string, rest: string, cut: Cut)
    requires Gap(gap, cut) && w != "" && Unbroken(w, cut, 0, |w|) && (rest == "" || cut.Ends(rest[0]))
    ensures Words(gap + (w + rest), cut) == [w] + Words(rest, cut)
  {
    WordsOfGap(gap, w + rest, cut);
    WordsOfWord(w, rest, cut);
  }

  lemma TwoWordsThen(a: string, pad: string, b: string, gap: string, rest: string, cut: Cut)
    requires a != "" && b != "" && Unbroken(a, cut, 0, |a|) && Unbroken(b, cut, 0, |b|)
    requires Gap(pad, cut) && Gap(gap, cut)
    ensures Words(a + (pad + (b + (gap + rest))), cut) == [a, b] + Words(rest, cut)
  {
    var afterB := gap + rest;
    var afterA := pad + (b + afterB);
    assert afterB[0] == gap[0] && afterA[0] == pad[0];
    WordsOfWord(a, afterA, cut);
    WordsOfGapAndWord(pad, b, afterB, cut);
    WordsOfGap(gap, rest, cut);
    assert [a] + ([b] + Words(rest, cut)) == [a, b] + Words(rest, cut);
  }

  /** A printed line is read back as the algorithm, the digest, and the fields of whatever
      the target is. */
  lemma LineFields(item: Item)
    requires Word(item.record.digest)
    ensures Fields(LineOf(item)) == [Name(item.record.algorithm), item.record.digest] + Fields(item.target)
  {
    var name, digest, target := Name(item.record.algorithm), item.record.digest, item.target;
    var pad, gap := Spaces(8 - |name|), "  ";
    var rest := digest + (gap + target);
    assert pad + (gap + rest) == (pad + gap) + rest;
    TwoWordsThen(name, pad + gap, digest, gap, target, WHITE_SPACE);
  }

  // ----- what is read --------------------------------------------------------------------

  const MAX_LINE_BYTES := 0x10_0000

  datatype ManifestData = ManifestData(entries: map<string, string>, algorithms: set<Algorithm>)

  function ManifestKey(algorithm: string, target: string): string {
    algorithm + [NUL] + target
  }

  lemma ManifestKeyInjective(a: Algorithm, t: string, b: Algorithm, u: string)
    requires ManifestKey(Name(a), t) == ManifestKey(Name(b), u)
    ensures a == b && t == u
  {
    CutAtNul(Name(a), t, Name(b), u);
  }

  datatype Known = Unknown | Known(algorithm: Algorithm)

  function Parse(field: string): (k: Known)
    ensures forall a :: Name(a) == field ==> k.Known?
    ensures k.Known? ==> Name(k.algorithm) == field
  {
    if field == "xxh64" then Known(Xxh64)
    else if field == "sha1" then Known(Sha1)
    else if field == "sha256" then Known(Sha256)
    else if field == "uuid" then Known(Uuid)
    else Unknown
  }

  /** One line more: what has fewer than three fields, or opens with no algorithm, says nothing. */
  function AddLine(m: ManifestData, line: string): ManifestData {
    var fields := Fields(line);
    if |fields| < 3 || Parse(fields[0]).Unknown? then m
    else ManifestData(m.entries[ManifestKey(fields[0], fields[2]) := fields[1]],
                      m.algorithms + {Parse(fields[0]).algorithm})
  }

  function ReadLines(lines: seq<string>): ManifestData {
    if lines == [] then ManifestData(map[], {})
    else AddLine(ReadLines(lines[..|lines| - 1]), lines[|lines| - 1])
  }

  /** One line more is read as a known algorithm, a digest and a target, the last of which
      stands, if it has as many fields and opens so, and else as nothing. */
  lemma ReadMore(lines: seq<string>, line: string)
    ensures var before, after := ReadLines(lines), ReadLines(lines + [line]);
            var f := Fields(line);
            if |f| >= 3 && (f[0] == "xxh64" || f[0] == "sha1" || f[0] == "sha256" || f[0] == "uuid")
            then after.entries == before.entries[f[0] + "\0" + f[2] := f[1]]
                 && after.algorithms
                    == before.algorithms + {if f[0] == "xxh64" then Xxh64 else if f[0] == "sha1" then Sha1
                                            else if f[0] == "sha256" then Sha256 else Uuid}
            else after == before
  {
    assert (lines + [line])[..|lines|] == lines;
    assert [NUL] == "\0";
  }

  /** Some line speaks of the algorithm: it opens with its name and has three fields at least. */
  ghost predicate Speaks(lines: seq<string>, name: string) {
    exists i :: 0 <= i < |lines| && SpeaksOf(lines[i], name)
  }

  predicate SpeaksOf(line: string, name: string) {
    |Fields(line)| >= 3 && Fields(line)[0] == name
  }

  /** The algorithms read are those some line speaks of. */
  lemma {:induction false} AlgorithmsSpoken(lines: seq<string>)
    ensures var read := ReadLines(lines).algorithms;
            && (Xxh64 in read <==> Speaks(lines, "xxh64")) && (Sha1 in read <==> Speaks(lines, "sha1"))
            && (Sha256 in read <==> Speaks(lines, "sha256")) && (Uuid in read <==> Speaks(lines, "uuid"))
    decreases |lines|
  {
    if lines != [] {
      var before, line := lines[..|lines| - 1], lines[|lines| - 1];
      AlgorithmsSpoken(before);
      ReadMore(before, line);
      assert before + [line] == lines;
      SpeaksMore(before, line, "xxh64");
      SpeaksMore(before, line, "sha1");
      SpeaksMore(before, line, "sha256");
      SpeaksMore(before, line, "uuid");
    }
  }

  lemma SpeaksMore(lines: seq<string>, line: string, name: string)
    ensures Speaks(lines + [line], name) <==> Speaks(lines, name) || SpeaksOf(line, name)
  {
    var more := lines + [line];
    assert more[|lines|] == line && forall i :: 0 <= i < |lines| ==> more[i] == lines[i];
  }

  /** readManifest: fails on a line that with its end is longer than the scanner takes. */
  method ReadManifest(lines: seq<string>) returns (ok: bool, data: ManifestData)
    ensures ok <==> forall i :: 0 <= i < |lines| ==> |lines[i]| < MAX_LINE_BYTES
    ensures ok ==> data == ReadLines(lines)
  {
    data := ManifestData(map[], {});
    for i := 0 to |lines|
      invariant data == ReadLines(lines[..i])
      invariant forall k :: 0 <= k < i ==> |lines[k]| < MAX_LINE_BYTES
    {
      if |lines[i]| >= MAX_LINE_BYTES {
        return false, ManifestData(map[], {});
      }
      assert lines[..i + 1][..i] == lines[..i];
      data := AddLine(data, lines[i]);
    }
    assert lines[..|lines|] == lines;
    ok := true;
  }

  // ----- the check -------------------------------------------------------------------------

  datatype Status = Ok | Mismatch | NotFound

  function StatusOf(m: ManifestData, item: Item): Status {
    var key := ManifestKey(Name(item.record.algorithm), item.target);
    if key !in m.entries then NotFound
    else if m.entries[key] == item.record.digest then Ok
    else Mismatch
  }

  const SUCCESS := 0
  const FAILURE := 1
  const MISSING_ENTRY := 3
  const UNKNOWN_HASH := 4
  const FILE_ERROR := 5

  class VerificationState {
    var tensorFound: bool
    var tensorMismatch: bool
    var modelFound: bool
    var modelMismatch: bool

    constructor ()
      ensures !tensorFound && !tensorMismatch && !modelFound && !modelMismatch
    {
      tensorFound, tensorMismatch, modelFound, modelMismatch := false, false, false, false;
    }

    /** printRecord: the status of one digest, folded into what was found and mismatched. */
    method PrintRecord(m: ManifestData, item: Item) returns (status: Status)
      modifies this
      ensures status == StatusOf(m, item)
      ensures var key := Name(item.record.algorithm) + "\0" + item.target;
              status == if key !in m.entries then NotFound
                        else if m.entries[key] == item.record.digest then Ok else Mismatch
      ensures tensorFound == (old(tensorFound) || (item.tensor && status != NotFound))
      ensures tensorMismatch == (old(tensorMismatch) || (item.tensor && status == Mismatch))
      ensures modelFound == (old(modelFound) || (!item.tensor && status != NotFound))
      ensures modelMismatch == (old(modelMismatch) || (!item.tensor && status == Mismatch))
    {
      assert [NUL] == "\0";
      var key := ManifestKey(Name(item.record.algorithm), item.target);
      var found := key in m.entries;
      status := NotFound;
      if found {
        status := Ok;
        if m.entries[key] != item.record.digest {
          status := Mismatch;
        }
      }
      if item.tensor {
        tensorFound := tensorFound || found;
        tensorMismatch := tensorMismatch || (found && status.Mismatch?);
      } else {
        modelFound := modelFound || found;
        modelMismatch := modelMismatch || (found && status.Mismatch?);
      }
    }

    method ExitCode() returns (code: int)
      ensures code == MISSING_ENTRY <==> !modelFound && !tensorFound
      ensures code == FAILURE <==> (modelFound || tensorFound) && (tensorMismatch || (modelFound && modelMismatch))
      ensures code == SUCCESS || code == FAILURE || code == MISSING_ENTRY
    {
      if !modelFound {
        if !tensorFound {
          return MISSING_ENTRY;
        }
        if tensorMismatch {
          return FAILURE;
        }
        return SUCCESS;
      }
      if modelMismatch || tensorMismatch {
        return FAILURE;
      }
      return SUCCESS;
    }
  }

  ghost predicate Found(m: ManifestData, items: seq<Item>) {
    exists i :: 0 <= i < |items| && StatusOf(m, items[i]) != NotFound
  }

  ghost predicate Mismatched(m: ManifestData, items: seq<Item>) {
    exists i :: 0 <= i < |items| && StatusOf(m, items[i]) == Mismatch
  }

  /** The loops over what is checked: success exactly when something was found and
      nothing found mismatched, and a missing entry exactly when nothing was found. */
  method Check(m: ManifestData, items: seq<Item>) returns (code: int)
    ensures code == SUCCESS <==> Found(m, items) && !Mismatched(m, items)
    ensures code == FAILURE <==> Mismatched(m, items)
    ensures code == MISSING_ENTRY <==> !Found(m, items)
  {
    var state := new VerificationState();
    for i := 0 to |items|
      invariant fresh(state)
      invariant state.tensorFound || state.modelFound <==>
                  exists k :: 0 <= k < i && StatusOf(m, items[k]) != NotFound
      invariant state.tensorMismatch || state.modelMismatch <==>
                  exists k :: 0 <= k < i && StatusOf(m, items[k]) == Mismatch
      invariant (state.tensorMismatch ==> state.tensorFound) && (state.modelMismatch ==> state.modelFound)
    {
      var status := state.PrintRecord(m, items[i]);
    }
    code := state.ExitCode();
  }

  /** execute's choice: the flags given, or with none the strongest the manifest has,
      or with no manifest xxh64. */
  function Chosen(flags: Flags, algorithms: set<Algorithm>): Flags {
    if !flags.None() then flags
    else if Sha256 in algorithms then Flags(false, false, true, false)
    else if Sha1 in algorithms then Flags(false, true, false, false)
    else if Xxh64 in algorithms then Flags(true, false, false, false)
    else if Uuid in algorithms then Flags(false, false, false, true)
    else Flags(true, false, false, false)
  }

  /** execute without a manifest: the lines printed. */
  function Printed(flags: Flags, noLayer: bool, input: string, file: File): seq<string> {
    LinesOf(Items(Chosen(flags, {}), noLayer, input, file))
  }

  /** Without flags what is printed is of xxh64, and else of the flags given. */
  lemma PrintedPlainly(flags: Flags, noLayer: bool, input: string, file: File)
    ensures var given := flags.xxh64 || flags.sha1 || flags.sha256 || flags.uuid;
            var chosen := if given then flags else Flags(true, false, false, false);
            Printed(flags, noLayer, input, file) == LinesOf(Items(chosen, noLayer, input, file))
  {
  }

  /** The code is that of a check of the lines by these flags alone. */
  ghost predicate Answers(code: int, flags: Flags, noLayer: bool, input: string, file: File, lines: seq<string>) {
    var m, items := ReadLines(lines), Items(flags, noLayer, input, file);
    code == if Mismatched(m, items) then 1 else if Found(m, items) then 0 else 3
  }

  lemma ChosenByLines(flags: Flags, lines: seq<string>)
    requires !(flags.xxh64 || flags.sha1 || flags.sha256 || flags.uuid)
    ensures var chosen := Chosen(flags, ReadLines(lines).algorithms);
            && (Speaks(lines, "sha256") ==> chosen == Flags(false, false, true, false))
            && (!Speaks(lines, "sha256") && Speaks(lines, "sha1") ==> chosen == Flags(false, true, false, false))
            && (!Speaks(lines, "sha256") && !Speaks(lines, "sha1") && Speaks(lines, "xxh64") ==>
                  chosen == Flags(true, false, false, false))
            && (!Speaks(lines, "sha256") && !Speaks(lines, "sha1") && !Speaks(lines, "xxh64")
                && Speaks(lines, "uuid") ==>
                  chosen == Flags(false, false, false, true))
  {
    AlgorithmsSpoken(lines);
  }

  lemma NoneIsSpoken(lines: seq<string>)
    ensures ReadLines(lines).algorithms == {} <==>
            !Speaks(lines, "sha256") && !Speaks(lines, "sha1") && !Speaks(lines, "xxh64") && !Speaks(lines, "uuid")
  {
    AlgorithmsSpoken(lines);
    if a :| a in ReadLines(lines).algorithms {
      assert a == Xxh64 || a == Sha1 || a == Sha256 || a == Uuid;
    }
  }

  /** execute with one: by the flags given, or with none by the strongest algorithm that a
      line speaks of. */
  method Execute(flags: Flags, noLayer: bool, input: string, file: File, lines: seq<string>) returns (code: int)
    ensures (exists i :: 0 <= i < |lines| && |lines[i]| >= MAX_LINE_BYTES) ==> code == FILE_ERROR
    ensures (forall i :: 0 <= i < |lines| ==> |lines[i]| < MAX_LINE_BYTES) ==>
              var m := ReadLines(lines);
              var items := Items(Chosen(flags, m.algorithms), noLayer, input, file);
              && (code == UNKNOWN_HASH <==> m.algorithms == {})
              && (m.algorithms != {} ==>
                    && (code == SUCCESS <==> Found(m, items) && !Mismatched(m, items))
                    && (code == FAILURE <==> Mismatched(m, items))
                    && (code == MISSING_ENTRY <==> !Found(m, items)))
    ensures var sha256, sha1 := Speaks(lines, "sha256"), Speaks(lines, "sha1");
            var xxh64, uuid := Speaks(lines, "xxh64"), Speaks(lines, "uuid");
            if exists i :: 0 <= i < |lines| && |lines[i]| >= 1048576 then code == 5
            else if !(sha256 || sha1 || xxh64 || uuid) then code == 4
            else Answers(code, if flags.xxh64 || flags.sha1 || flags.sha256 || flags.uuid then flags
                               else if sha256 then Flags(false, false, true, false)
                               else if sha1 then Flags(false, true, false, false)
                               else if xxh64 then Flags(true, false, false, false)
                               else Flags(false, false, false, true), noLayer, input, file, lines)
  {
    NoneIsSpoken(lines);
    if flags.None() {
      ChosenByLines(flags, lines);
    }
    var ok, m := ReadManifest(lines);
    if !ok {
      return FILE_ERROR;
    }
    if m.algorithms == {} {
      return UNKNOWN_HASH;
    }
    code := Check(m, Items(Chosen(flags, m.algorithms), noLayer, input, file));
  }

  // ----- what printed lines are read as -----------------------------------------------------------

  lemma ParseName(a: Algorithm)
    ensures Parse(Name(a)) == Known(a)
  {
  }

  /** The digest under its target's first field; a target of white space alone adds nothing. */
  function AddItem(m: ManifestData, item: Item): ManifestData {
    var fields, a := Fields(item.target), item.record.algorithm;
    if fields == [] then m
    else ManifestData(m.entries[ManifestKey(Name(a), fields[0]) := item.record.digest], m.algorithms + {a})
  }

  /** A printed line adds what its item says. */
  lemma AddPrinted(m: ManifestData, item: Item)
    requires Word(item.record.digest)
    ensures AddLine(m, LineOf(item)) == AddItem(m, item)
  {
    LineFields(item);
    ParseName(item.record.algorithm);
    var fields := Fields(LineOf(item));
    assert Fields(item.target) != [] ==> fields[2] == Fields(item.target)[0];
  }

  /** The item's line opens with this algorithm and, third, with this field. */
  predicate Opens(item: Item, a: Algorithm, u: string) {
    item.record.algorithm == a && Fields(item.target) != [] && Fields(item.target)[0] == u
  }

  /** The last of the first n items whose line opens so, or -1. */
  function LastLine(items: seq<Item>, n: nat, a: Algorithm, u: string): (k: int)
    requires n <= |items|
    ensures -1 <= k < n
    ensures k >= 0 ==> Opens(items[k], a, u)
    ensures forall i :: k < i < n ==> !Opens(items[i], a, u)
  {
    if n == 0 then -1 else if Opens(items[n - 1], a, u) then n - 1 else LastLine(items, n - 1, a, u)
  }

  /** The digest the last such line has, if any of the first n items opens so. */
  function EntryIn(items: seq<Item>, n: nat, a: Algorithm, u: string): Option<string>
    requires n <= |items|
  {
    var k := LastLine(items, n, a, u);
    if k < 0 then None else Some(items[k].record.digest)
  }

  /** What was read under the algorithm and the target. */
  function Looked(m: ManifestData, a: Algorithm, u: string): Option<string> {
    var key := ManifestKey(Name(a), u);
    if key in m.entries then Some(m.entries[key]) else None
  }

  /** The algorithms of the first n items whose lines say anything. */
  function PrintedAlgorithms(items: seq<Item>, n: nat): set<Algorithm>
    requires n <= |items|
  {
    if n == 0 then {}
    else PrintedAlgorithms(items, n - 1)
         + if Fields(items[n - 1].target) == [] then {} else {items[n - 1].record.algorithm}
  }

  lemma ReadOneMore(lines: seq<string>, n: nat)
    requires n < |lines|
    ensures ReadLines(lines[..n + 1]) == AddLine(ReadLines(lines[..n]), lines[n])
  {
    assert lines[..n + 1][..n] == lines[..n];
  }

  ghost predicate DigestsAreWords(items: seq<Item>) {
    forall i :: 0 <= i < |items| ==> Word(items[i].record.digest)
  }

  /** What the first n items say, each under its target's first field. */
  function ReadItems(items: seq<Item>, n: nat): ManifestData
    requires n <= |items|
  {
    if n == 0 then ManifestData(map[], {}) else AddItem(ReadItems(items, n - 1), items[n - 1])
  }

  /** The lines are read as the items they print. */
  lemma {:induction false} LinesAreItems(items: seq<Item>, lines: seq<string>, n: nat)
    requires n <= |items| == |lines| && WordsTo(items, n)
    requires forall i :: 0 <= i < |lines| ==> lines[i] == LineOf(items[i])
    ensures ReadLines(lines[..n]) == ReadItems(items, n)
  {
    if n > 0 {
      LinesAreItems(items, lines, n - 1);
      LineIsItem(items, lines, n - 1);
    }
  }

  lemma LineIsItem(items: seq<Item>, lines: seq<string>, n: nat)
    requires n < |items| == |lines| && Word(items[n].record.digest) && lines[n] == LineOf(items[n])
    requires ReadLines(lines[..n]) == ReadItems(items, n)
    ensures ReadLines(lines[..n + 1]) == ReadItems(items, n + 1)
  {
    ReadOneMore(lines, n);
    AddPrinted(ReadItems(items, n), items[n]);
  }

  /** The first n items' digests are words. */
  ghost predicate WordsTo(items: seq<Item>, n: nat)
    requires n <= |items|
  {
    n == 0 || (Word(items[n - 1].record.digest) && WordsTo(items, n - 1))
  }

  lemma {:induction false} AllAreWords(items: seq<Item>, n: nat)
    requires n <= |items| && DigestsAreWords(items)
    ensures WordsTo(items, n)
  {
    if n > 0 {
      AllAreWords(items, n - 1);
    }
  }

  lemma {:induction false} ItemsAreLooked(items: seq<Item>, n: nat, a: Algorithm, u: string)
    requires n <= |items|
    ensures Looked(ReadItems(items, n), a, u) == EntryIn(items, n, a, u)
  {
    if n > 0 {
      ItemsAreLooked(items, n - 1, a, u);
      var item := items[n - 1];
      if Fields(item.target) != [] {
        var b, v := item.record.algorithm, Fields(item.target)[0];
        if ManifestKey(Name(a), u) == ManifestKey(Name(b), v) {
          ManifestKeyInjective(a, u, b, v);
        }
      }
    }
  }

  /** Of any printed items, whatever their targets: each algorithm and first field has the
      digest of the last line that opens so, and nothing else has any. */
  lemma PrintedIsRead(items: seq<Item>, n: nat, a: Algorithm, u: string)
    requires n <= |items| && DigestsAreWords(items)
    ensures Looked(ReadLines(LinesOf(items)[..n]), a, u) == EntryIn(items, n, a, u)
  {
    AllAreWords(items, n);
    LinesAreItems(items, LinesOf(items), n);
    ItemsAreLooked(items, n, a, u);
  }

  lemma {:induction false} ItemsAlgorithms(items: seq<Item>, n: nat)
    requires n <= |items|
    ensures ReadItems(items, n).algorithms == PrintedAlgorithms(items, n)
  {
    if n > 0 {
      ItemsAlgorithms(items, n - 1);
    }
  }

  lemma AlgorithmsAreRead(items: seq<Item>, n: nat)
    requires n <= |items| && DigestsAreWords(items)
    ensures ReadLines(LinesOf(items)[..n]).algorithms == PrintedAlgorithms(items, n)
  {
    AllAreWords(items, n);
    LinesAreItems(items, LinesOf(items), n);
    ItemsAlgorithms(items, n);
  }

  /** The status of a digest against printed items: that of the last line that opens with
      its algorithm and its whole target. */
  function StatusIn(items: seq<Item>, item: Item): Status {
    match EntryIn(items, |items|, item.record.algorithm, item.target)
    case None => NotFound
    case Some(digest) => if digest == item.record.digest then Ok else Mismatch
  }

  lemma PrintedStatus(items: seq<Item>, item: Item)
    requires DigestsAreWords(items)
    ensures StatusOf(ReadLines(LinesOf(items)), item) == StatusIn(items, item)
  {
    assert LinesOf(items)[..|items|] == LinesOf(items);
    PrintedIsRead(items, |items|, item.record.algorithm, item.target);
  }

  ghost predicate FoundIn(items: seq<Item>, checked: seq<Item>) {
    exists i :: 0 <= i < |checked| && StatusIn(items, checked[i]) != NotFound
  }

  ghost predicate MismatchedIn(items: seq<Item>, checked: seq<Item>) {
    exists i :: 0 <= i < |checked| && StatusIn(items, checked[i]) == Mismatch
  }

  /** A check against printed items finds something, or something mismatched, exactly when
      the lines say so. */
  lemma CheckedAgainstPrinted(items: seq<Item>, checked: seq<Item>)
    requires DigestsAreWords(items)
    ensures var m := ReadLines(LinesOf(items));
            && (Found(m, checked) <==> FoundIn(items, checked))
            && (Mismatched(m, checked) <==> MismatchedIn(items, checked))
            && m.algorithms == PrintedAlgorithms(items, |items|)
  {
    assert LinesOf(items)[..|items|] == LinesOf(items);
    AlgorithmsAreRead(items, |items|);
    forall i | 0 <= i < |checked|
      ensures StatusOf(ReadLines(LinesOf(items)), checked[i]) == StatusIn(items, checked[i]) {
      PrintedStatus(items, checked[i]);
    }
  }

  // ----- what is listed of a file -----------------------------------------------------------------

  ghost predicate AllWords(values: Values) {
    Word(values.xxh64) && Word(values.sha1) && Word(values.sha256) && Word(values.uuid)
  }

  /** Every digest of the file is a word. */
  ghost predicate Hashed(file: File) {
    AllWords(file.model) && forall i :: 0 <= i < |file.tensors| ==> AllWords(file.tensors[i].values)
  }

  ghost predicate TensorItemOf(input: string, file: File, item: Item, i: int) {
    && 0 <= i < |file.tensors|
    && item.target == input + ":" + file.tensors[i].name
    && item.record.digest == file.tensors[i].values.Of(item.record.algorithm)
  }

  /** The item is a selected digest of the file, of a tensor or of the whole. */
  ghost predicate Listed(item: Item, flags: Flags, noLayer: bool, input: string, file: File) {
    && flags.Has(item.record.algorithm)
    && (item.tensor ==> !noLayer && item.record.algorithm != Uuid && exists i :: TensorItemOf(input, file, item, i))
    && (!item.tensor ==> item.target == input && item.record.digest == file.model.Of(item.record.algorithm))
  }

  lemma RecordsOfSelected(values: Values, flags: Flags, tensor: bool, record: Record)
    requires record in Records(Selected(values, flags, tensor), flags.uuid && !tensor)
    ensures flags.Has(record.algorithm) && record.digest == values.Of(record.algorithm)
    ensures tensor ==> record.algorithm != Uuid
  {
    RecordsAreOf(Selected(values, flags, tensor), flags.uuid && !tensor, record);
  }

  lemma RecordsAreOf(values: Values, includeUUID: bool, record: Record)
    requires record in Records(values, includeUUID)
    ensures record.digest == values.Of(record.algorithm) && record.digest != ""
    ensures record.algorithm == Uuid ==> includeUUID
  {
  }

  lemma RecordIsThere(values: Values, flags: Flags, a: Algorithm)
    requires flags.Has(a) && values.Of(a) != ""
    ensures Record(a, values.Of(a)) in Records(Selected(values, flags, false), flags.uuid)
  {
  }

  lemma {:induction false} TensorItemsOfFile(flags: Flags, input: string, file: File, k: nat, item: Item)
    requires k <= |file.tensors| && item in TensorItems(flags, input, file.tensors[k..])
    ensures Listed(item, flags, false, input, file) && item.tensor
    decreases |file.tensors| - k
  {
    var rest := file.tensors[k..];
    assert rest[0] == file.tensors[k] && rest[1..] == file.tensors[k + 1..];
    var records := Records(Selected(rest[0].values, flags, true), false);
    if item in Targeted(records, input + ":" + rest[0].name, true) {
      assert item.record in records;
      RecordsOfSelected(rest[0].values, flags, true, item.record);
      assert TensorItemOf(input, file, item, k);
    } else {
      TensorItemsOfFile(flags, input, file, k + 1, item);
    }
  }

  /** What is listed for a file, under any flags, is a selected digest of it. */
  lemma ItemsOfFile(flags: Flags, noLayer: bool, input: string, file: File, item: Item)
    requires item in Items(flags, noLayer, input, file)
    ensures Listed(item, flags, noLayer, input, file)
  {
    if item in ModelItems(flags, input, file) {
      var records := Records(Selected(file.model, flags, false), flags.uuid);
      assert item.record in records;
      RecordsOfSelected(file.model, flags, false, item.record);
    } else {
      assert file.tensors[0..] == file.tensors;
      TensorItemsOfFile(flags, input, file, 0, item);
    }
  }

  /** The whole file's digest is listed for every flag. */
  lemma ModelItem(flags: Flags, noLayer: bool, input: string, file: File, a: Algorithm)
    requires flags.Has(a) && file.model.Of(a) != ""
    ensures Item(Record(a, file.model.Of(a)), input, false) in Items(flags, noLayer, input, file)
  {
    var records := Records(Selected(file.model, flags, false), flags.uuid);
    RecordIsThere(file.model, flags, a);
    var i :| 0 <= i < |records| && records[i] == Record(a, file.model.Of(a));
    assert Targeted(records, input, false)[i] == Item(records[i], input, false);
  }

  lemma ListedIsWord(item: Item, flags: Flags, noLayer: bool, input: string, file: File)
    requires Hashed(file) && Listed(item, flags, noLayer, input, file)
    ensures Word(item.record.digest)
  {
    if item.tensor {
      var i :| TensorItemOf(input, file, item, i);
      WordOf(file.tensors[i].values, item.record.algorithm);
    } else {
      WordOf(file.model, item.record.algorithm);
    }
  }

  lemma WordOf(values: Values, a: Algorithm)
    requires AllWords(values)
    ensures Word(values.Of(a))
  {
  }

  lemma FileDigestsAreWords(flags: Flags, noLayer: bool, input: string, file: File)
    requires Hashed(file)
    ensures DigestsAreWords(Items(flags, noLayer, input, file))
  {
    var items := Items(flags, noLayer, input, file);
    forall i | 0 <= i < |items| ensures Word(items[i].record.digest) {
      ItemsOfFile(flags, noLayer, input, file, items[i]);
      ListedIsWord(items[i], flags, noLayer, input, file);
    }
  }

  /** Print a file's digests, then check it against them, whatever its path and its tensors'
      names: an unknown hash when no line says anything, and else what the lines say. */
  method PrintThenCheck(flags: Flags, noLayer: bool, checkFlags: Flags, checkNoLayer: bool, input: string, file: File)
      returns (code: int)
    requires Hashed(file)
    requires var lines := Printed(flags, noLayer, input, file);
             forall i :: 0 <= i < |lines| ==> |lines[i]| < MAX_LINE_BYTES
    ensures var items := Items(Chosen(flags, {}), noLayer, input, file);
            var algorithms := PrintedAlgorithms(items, |items|);
            var checked := Items(Chosen(checkFlags, algorithms), checkNoLayer, input, file);
            && (code == UNKNOWN_HASH <==> algorithms == {})
            && (algorithms != {} ==>
                  && (code == SUCCESS <==> FoundIn(items, checked) && !MismatchedIn(items, checked))
                  && (code == FAILURE <==> MismatchedIn(items, checked))
                  && (code == MISSING_ENTRY <==> !FoundIn(items, checked)))
  {
    var lines := Printed(flags, noLayer, input, file);
    ghost var items := Items(Chosen(flags, {}), noLayer, input, file);
    FileDigestsAreWords(Chosen(flags, {}), noLayer, input, file);
    CheckedAgainstPrinted(
      items, Items(Chosen(checkFlags, PrintedAlgorithms(items, |items|)), checkNoLayer, input, file));
    code := Execute(checkFlags, checkNoLayer, input, file, lines);
  }

  // ----- the round trip -----------------------------------------------------------------------------

  /** The two select an algorithm in common. */
  predicate Share(p: Flags, c: Flags) {
    (p.xxh64 && c.xxh64) || (p.sha1 && c.sha1) || (p.sha256 && c.sha256) || (p.uuid && c.uuid)
  }

  lemma Shared(p: Flags, c: Flags) returns (a: Algorithm)
    requires Share(p, c)
    ensures p.Has(a) && c.Has(a)
  {
    a := if p.xxh64 && c.xxh64 then Xxh64 else if p.sha1 && c.sha1 then Sha1
         else if p.sha256 && c.sha256 then Sha256 else Uuid;
  }

  lemma HasShares(p: Flags, c: Flags, a: Algorithm)
    requires p.Has(a) && c.Has(a)
    ensures Share(p, c)
  {
  }

  /** Text that opens with a word has a first field that opens with it. */
  lemma FirstFieldOpens(w: string, rest: string)
    requires Word(w)
    ensures Fields(w + rest) != [] && w <= Fields(w + rest)[0]
  {
    var s := w + rest;
    assert forall k :: 0 <= k < |w| ==> s[k] == w[k];
    var n := WordLength(s, WHITE_SPACE);
    assert n >= |w|;
    assert Fields(s) == [s[..n]] + Words(s[n..], WHITE_SPACE);
    assert s[..n][..|w|] == w;
  }

  /** The first field of text that opens with no white space. */
  lemma FirstField(s: string)
    requires s != "" && !IsSpace(s[0])
    ensures var n := WordLength(s, WHITE_SPACE); Fields(s) != [] && Fields(s)[0] == s[..n]
  {
    var n := WordLength(s, WHITE_SPACE);
    assert Fields(s) == [s[..n]] + Words(s[n..], WHITE_SPACE);
  }

  lemma FieldOfWord(w: string)
    requires Word(w)
    ensures Fields(w) == [w]
  {
    WordsOfWord(w, "", WHITE_SPACE);
    assert w + "" == w;
  }

  /** A tensor's line never opens with the file's own path. */
  lemma TensorOpensLater(input: string, name: string)
    requires Word(input)
    ensures Fields(input + ":" + name) != [] && |Fields(input + ":" + name)[0]| > |input|
  {
    assert IsSpace(':') == false;
    FirstFieldOpens(input + ":", name);
  }

  // ----- whose line a tensor is found by ----------------------------------------------------------

  /** The name is the other's, or the other's and more after white space. */
  predicate Takes(name: string, other: string) {
    other <= name && (|name| == |other| || IsSpace(name[|other|]))
  }

  /** The line of a tensor opens with another's target exactly when its name takes the other's. */
  lemma TakesExactly(input: string, name: string, other: string)
    requires Word(input) && SpaceFree(other)
    ensures var fields := Fields(input + ":" + name);
            fields != [] && (fields[0] == input + ":" + other <==> Takes(name, other))
  {
    var s, t := input + ":" + name, input + ":" + other;
    assert IsSpace(':') == false;
    FirstField(s);
    if Takes(name, other) {
      assert s == t + name[|other|..];
      WordsOfWord(t, name[|other|..], WHITE_SPACE);
    }
    if Fields(s)[0] == t {
      TakesByField(input, name, other);
    }
  }

  lemma TakesByField(input: string, name: string, other: string)
    requires var s, t := input + ":" + name, input + ":" + other;
             var n := WordLength(s, WHITE_SPACE);
             s[..n] == t && (n < |s| ==> IsSpace(s[n]))
    ensures Takes(name, other)
  {
    var s, t := input + ":" + name, input + ":" + other;
    assert name == s[|input| + 1..] && other == t[|input| + 1..];
    assert name[..|other|] == other;
    assert |name| > |other| ==> s[|t|] == name[|other|];
  }

  /** The last tensor whose name takes this one, or -1. */
  function LastTensor(tensors: seq<Tensor>, name: string): (j: int)
    ensures -1 <= j < |tensors|
    ensures j >= 0 ==> Takes(tensors[j].name, name)
    ensures forall i :: j < i < |tensors| ==> !Takes(tensors[i].name, name)
  {
    if tensors == [] then -1
    else if LastTensor(tensors[1..], name) >= 0 then LastTensor(tensors[1..], name) + 1
    else if Takes(tensors[0].name, name) then 0
    else -1
  }

  /** The last line of two lists end to end is that of the second, if it has one. */
  lemma {:induction false} LastLineAppend(xs: seq<Item>, ys: seq<Item>, n: nat, a: Algorithm, u: string)
    requires n <= |ys|
    ensures var k := LastLine(ys, n, a, u);
            LastLine(xs + ys, |xs| + n, a, u) == if k >= 0 then |xs| + k else LastLine(xs, |xs|, a, u)
  {
    if n == 0 {
      LastLineOfFirst(xs, ys, |xs|, a, u);
    } else {
      assert (xs + ys)[|xs| + n - 1] == ys[n - 1];
      LastLineAppend(xs, ys, n - 1, a, u);
    }
  }

  lemma {:induction false} LastLineOfFirst(xs: seq<Item>, ys: seq<Item>, n: nat, a: Algorithm, u: string)
    requires n <= |xs|
    ensures LastLine(xs + ys, n, a, u) == LastLine(xs, n, a, u)
  {
    if n > 0 {
      assert (xs + ys)[n - 1] == xs[n - 1];
      LastLineOfFirst(xs, ys, n - 1, a, u);
    }
  }

  function Entry(items: seq<Item>, a: Algorithm, u: string): Option<string> {
    EntryIn(items, |items|, a, u)
  }

  lemma EntryAppend(xs: seq<Item>, ys: seq<Item>, a: Algorithm, u: string)
    ensures Entry(xs + ys, a, u) == if Entry(ys, a, u).Some? then Entry(ys, a, u) else Entry(xs, a, u)
  {
    LastLineAppend(xs, ys, |ys|, a, u);
  }

  lemma NoEntry(items: seq<Item>, a: Algorithm, u: string)
    requires forall i :: 0 <= i < |items| ==> !Opens(items[i], a, u)
    ensures Entry(items, a, u) == None
  {
  }

  lemma TensorItemIsThere(flags: Flags, a: Algorithm, values: Values, target: string)
    requires flags.Has(a) && a != Uuid && AllWords(values)
    ensures Item(Record(a, values.Of(a)), target, true)
         in Targeted(Records(Selected(values, flags, true), false), target, true)
  {
    var records := Records(Selected(values, flags, true), false);
    assert Record(a, values.Of(a)) in records;
    var k :| 0 <= k < |records| && records[k] == Record(a, values.Of(a));
    assert Targeted(records, target, true)[k] == Item(records[k], target, true);
  }

  /** Items of one target, with one record of an algorithm. */
  lemma EntryOfOne(items: seq<Item>, item: Item, a: Algorithm, u: string)
    requires item in items && item.record.algorithm == a
    requires forall k :: 0 <= k < |items| ==>
               items[k].target == item.target && (items[k].record.algorithm == a ==> items[k].record == item.record)
    ensures Entry(items, a, u) == if Opens(item, a, u) then Some(item.record.digest) else None
  {
    var i :| 0 <= i < |items| && items[i] == item;
    assert Opens(item, a, u) ==> Opens(items[i], a, u);
  }

  /** One tensor's lines, of a selected algorithm. */
  lemma EntryOfTensor(flags: Flags, a: Algorithm, input: string, tensor: Tensor, name: string)
    requires Word(input) && SpaceFree(name) && AllWords(tensor.values) && flags.Has(a) && a != Uuid
    ensures var records := Records(Selected(tensor.values, flags, true), false);
            var items := Targeted(records, input + ":" + tensor.name, true);
            Entry(items, a, input + ":" + name) == if Takes(tensor.name, name) then Some(tensor.values.Of(a)) else None
  {
    var target, u := input + ":" + tensor.name, input + ":" + name;
    var records := Records(Selected(tensor.values, flags, true), false);
    var items := Targeted(records, target, true);
    var item := Item(Record(a, tensor.values.Of(a)), target, true);
    TensorItemIsThere(flags, a, tensor.values, target);
    forall k | 0 <= k < |items|
      ensures items[k].target == target && (items[k].record.algorithm == a ==> items[k].record == item.record) {
      RecordsOfSelected(tensor.values, flags, true, records[k]);
    }
    EntryOfOne(items, item, a, u);
    TakesExactly(input, tensor.name, name);
  }

  /** Of the tensors' lines, a space-free name's entry is that of the last tensor that takes it. */
  lemma {:induction false} EntryOfTensors(flags: Flags, a: Algorithm, input: string, tensors: seq<Tensor>, name: string)
    requires Word(input) && SpaceFree(name) && flags.Has(a) && a != Uuid
    requires forall i :: 0 <= i < |tensors| ==> AllWords(tensors[i].values)
    ensures var j := LastTensor(tensors, name);
            var entry := Entry(TensorItems(flags, input, tensors), a, input + ":" + name);
            entry == if j >= 0 then Some(tensors[j].values.Of(a)) else None
  {
    if tensors != [] {
      var records := Records(Selected(tensors[0].values, flags, true), false);
      var own := Targeted(records, input + ":" + tensors[0].name, true);
      EntryOfTensors(flags, a, input, tensors[1..], name);
      EntryOfTensor(flags, a, input, tensors[0], name);
      EntryAppend(own, TensorItems(flags, input, tensors[1..]), a, input + ":" + name);
    }
  }

  /** The whole file's lines open with no tensor's target. */
  lemma NoEntryOfModel(flags: Flags, a: Algorithm, input: string, file: File, name: string)
    requires Word(input)
    ensures Entry(ModelItems(flags, input, file), a, input + ":" + name) == None
  {
    FieldOfWord(input);
    NoEntry(ModelItems(flags, input, file), a, input + ":" + name);
  }

  /** A tensor of a space-free name, looked up in the lines printed of its own file. */
  lemma EntryOfFile(p: Flags, noLayer: bool, a: Algorithm, input: string, file: File, name: string)
    requires Hashed(file) && Word(input) && SpaceFree(name) && a != Uuid
    ensures var j := LastTensor(file.tensors, name);
            var entry := Entry(Items(p, noLayer, input, file), a, input + ":" + name);
            entry == if !noLayer && p.Has(a) && j >= 0 then Some(file.tensors[j].values.Of(a)) else None
  {
    var items, u := Items(p, noLayer, input, file), input + ":" + name;
    NoEntryOfModel(p, a, input, file, name);
    if noLayer {
      assert items == ModelItems(p, input, file);
    } else if p.Has(a) {
      EntryOfTensors(p, a, input, file.tensors, name);
      EntryAppend(TensorItems(p, input, file.tensors), ModelItems(p, input, file), a, u);
    } else {
      forall i | 0 <= i < |items| ensures !Opens(items[i], a, u) {
        ItemsOfFile(p, noLayer, input, file, items[i]);
      }
      NoEntry(items, a, u);
    }
  }

  /** For each space-free name and shared algorithm, the last tensor whose name takes it
      has the same digest. */
  ghost predicate NamesHold(file: File, p: Flags, c: Flags) {
    forall i, a: Algorithm ::
      0 <= i < |file.tensors| && SpaceFree(file.tensors[i].name) && a != Uuid && p.Has(a) && c.Has(a) ==>
        file.tensors[LastTaker(file, i)].values.Of(a) == file.tensors[i].values.Of(a)
  }

  /** The last tensor whose name takes the i-th's, which takes its own. */
  function LastTaker(file: File, i: nat): (j: nat)
    requires i < |file.tensors|
    ensures i <= j < |file.tensors| && Takes(file.tensors[j].name, file.tensors[i].name)
  {
    assert Takes(file.tensors[i].name, file.tensors[i].name);
    LastTensor(file.tensors, file.tensors[i].name)
  }

  /** Names that hold no white space and differ hold whatever the digests. */
  lemma DistinctNamesHold(file: File, p: Flags, c: Flags)
    requires forall i :: 0 <= i < |file.tensors| ==> SpaceFree(file.tensors[i].name)
    requires forall i, j :: 0 <= i < j < |file.tensors| ==> file.tensors[i].name != file.tensors[j].name
    ensures NamesHold(file, p, c)
  {
    forall i | 0 <= i < |file.tensors| ensures LastTaker(file, i) == i {
      var j := LastTaker(file, i);
      assert SpaceFree(file.tensors[j].name);
    }
  }

  // ----- one file against its own lines -------------------------------------------------------------

  /** A tensor's digest mismatches the lines of its own file exactly when they list the
      tensors by its algorithm and its name is taken by another digest. */
  lemma TensorStatus(p: Flags, noLayerP: bool, input: string, file: File, item: Item, i: nat)
    requires Hashed(file) && Word(input) && item.record.algorithm != Uuid && TensorItemOf(input, file, item, i)
    ensures var a := item.record.algorithm;
            var name := file.tensors[i].name;
            StatusIn(Items(p, noLayerP, input, file), item) == Mismatch <==>
              && !noLayerP && p.Has(a) && SpaceFree(name)
              && file.tensors[LastTaker(file, i)].values.Of(a) != file.tensors[i].values.Of(a)
  {
    var items, a, name := Items(p, noLayerP, input, file), item.record.algorithm, file.tensors[i].name;
    if SpaceFree(name) {
      EntryOfFile(p, noLayerP, a, input, file, name);
      var j := LastTaker(file, i);
    } else {
      SpacedIsNotFound(items, item, |input| + 1, name);
    }
  }

  lemma SpacedIsNotFound(items: seq<Item>, item: Item, n: nat, name: string)
    requires n <= |item.target| && item.target[n..] == name && !SpaceFree(name)
    ensures StatusIn(items, item) == NotFound
  {
    var m :| 0 <= m < |name| && IsSpace(name[m]);
    assert item.target[n + m] == name[m];
    var k := LastLine(items, |items|, item.record.algorithm, item.target);
    if k >= 0 {
      assert item.target in Fields(items[k].target);
      FieldIsSpaceFree(items[k].target, item.target);
    }
  }

  /** The whole file's digest is found by its own line alone. */
  lemma ModelStatus(p: Flags, noLayerP: bool, input: string, file: File, item: Item)
    requires Word(input) && item.target == input && item.record.digest == file.model.Of(item.record.algorithm)
    ensures StatusIn(Items(p, noLayerP, input, file), item) != Mismatch
  {
    var items := Items(p, noLayerP, input, file);
    var k := LastLine(items, |items|, item.record.algorithm, input);
    if k >= 0 {
      ItemsOfFile(p, noLayerP, input, file, items[k]);
      if items[k].tensor {
        var i :| TensorItemOf(input, file, items[k], i);
        TensorOpensLater(input, file.tensors[i].name);
      }
    }
  }

  /** A file whose path is a word, checked against what was printed of it under any flags:
      something is found exactly when an algorithm is shared, and something mismatches
      exactly when both sides list the tensors and their names do not hold. */
  lemma PrintedIsFound(p: Flags, noLayerP: bool, c: Flags, noLayerC: bool, input: string, file: File)
    requires Hashed(file) && Word(input)
    ensures var items, checked := Items(p, noLayerP, input, file), Items(c, noLayerC, input, file);
            && (FoundIn(items, checked) <==> Share(p, c))
            && (MismatchedIn(items, checked) <==> !noLayerP && !noLayerC && !NamesHold(file, p, c))
  {
    var items, checked := Items(p, noLayerP, input, file), Items(c, noLayerC, input, file);
    forall k | 0 <= k < |checked|
      ensures StatusIn(items, checked[k]) != NotFound ==> Share(p, c)
      ensures StatusIn(items, checked[k]) == Mismatch ==> !noLayerP && !noLayerC && !NamesHold(file, p, c) {
      CheckedOne(p, noLayerP, c, noLayerC, input, file, checked[k]);
    }
    if Share(p, c) {
      SharedIsFound(p, noLayerP, c, noLayerC, input, file, items, checked);
    }
    if !noLayerP && !noLayerC && !NamesHold(file, p, c) {
      TakenMismatches(p, c, input, file);
    }
  }

  lemma CheckedOne(p: Flags, noLayerP: bool, c: Flags, noLayerC: bool, input: string, file: File, item: Item)
    requires Hashed(file) && Word(input) && item in Items(c, noLayerC, input, file)
    ensures var status := StatusIn(Items(p, noLayerP, input, file), item);
            && (status != NotFound ==> Share(p, c))
            && (status == Mismatch ==> !noLayerP && !noLayerC && !NamesHold(file, p, c))
  {
    ItemsOfFile(c, noLayerC, input, file, item);
    FoundIsShared(p, noLayerP, c, input, file, item);
    if item.tensor {
      var i :| TensorItemOf(input, file, item, i);
      TensorStatus(p, noLayerP, input, file, item, i);
      NotHeld(file, p, c, item.record.algorithm, i);
    } else {
      ModelStatus(p, noLayerP, input, file, item);
    }
  }

  lemma FoundIsShared(p: Flags, noLayerP: bool, c: Flags, input: string, file: File, item: Item)
    requires c.Has(item.record.algorithm)
    ensures StatusIn(Items(p, noLayerP, input, file), item) != NotFound ==> Share(p, c)
  {
    var items := Items(p, noLayerP, input, file);
    var k := LastLine(items, |items|, item.record.algorithm, item.target);
    if k >= 0 {
      ItemsOfFile(p, noLayerP, input, file, items[k]);
      HasShares(p, c, item.record.algorithm);
    }
  }

  lemma NotHeld(file: File, p: Flags, c: Flags, a: Algorithm, i: nat)
    requires i < |file.tensors| && a != Uuid && c.Has(a)
    ensures NamesHold(file, p, c) && SpaceFree(file.tensors[i].name) && p.Has(a) ==>
              file.tensors[LastTaker(file, i)].values.Of(a) == file.tensors[i].values.Of(a)
  {
  }

  /** A name that does not hold is of a listed tensor that mismatches. */
  lemma TakenMismatches(p: Flags, c: Flags, input: string, file: File)
    requires Hashed(file) && Word(input) && !NamesHold(file, p, c)
    ensures MismatchedIn(Items(p, false, input, file), Items(c, false, input, file))
  {
    var i, a: Algorithm :|
      && 0 <= i < |file.tensors| && SpaceFree(file.tensors[i].name) && a != Uuid && p.Has(a) && c.Has(a)
      && file.tensors[LastTaker(file, i)].values.Of(a) != file.tensors[i].values.Of(a);
    TakenMismatchesAt(p, c, input, file, i, a);
  }

  lemma TakenMismatchesAt(p: Flags, c: Flags, input: string, file: File, i: nat, a: Algorithm)
    requires Hashed(file) && Word(input) && i < |file.tensors| && SpaceFree(file.tensors[i].name)
    requires a != Uuid && p.Has(a) && c.Has(a)
    requires file.tensors[LastTaker(file, i)].values.Of(a) != file.tensors[i].values.Of(a)
    ensures MismatchedIn(Items(p, false, input, file), Items(c, false, input, file))
  {
    var checked := Items(c, false, input, file);
    var item := Item(Record(a, file.tensors[i].values.Of(a)), input + ":" + file.tensors[i].name, true);
    TensorIsListed(c, a, input, file.tensors, i);
    assert item in checked;
    var k :| 0 <= k < |checked| && checked[k] == item;
    assert TensorItemOf(input, file, item, i);
    TensorStatus(p, false, input, file, item, i);
    assert StatusIn(Items(p, false, input, file), checked[k]) == Mismatch;
  }

  lemma {:induction false} TensorIsListed(flags: Flags, a: Algorithm, input: string, tensors: seq<Tensor>, i: nat)
    requires i < |tensors| && flags.Has(a) && a != Uuid && AllWords(tensors[i].values)
    ensures Item(Record(a, tensors[i].values.Of(a)), input + ":" + tensors[i].name, true)
         in TensorItems(flags, input, tensors)
  {
    if i == 0 {
      TensorItemIsThere(flags, a, tensors[0].values, input + ":" + tensors[0].name);
    } else {
      TensorIsListed(flags, a, input, tensors[1..], i - 1);
    }
  }

  lemma SharedIsFound(p: Flags, noLayerP: bool, c: Flags, noLayerC: bool, input: string, file: File,
                      items: seq<Item>, checked: seq<Item>)
    requires Hashed(file) && Word(input) && Share(p, c)
    requires items == Items(p, noLayerP, input, file) && checked == Items(c, noLayerC, input, file)
    ensures FoundIn(items, checked)
  {
    var a := Shared(p, c);
    WordOf(file.model, a);
    var item := Item(Record(a, file.model.Of(a)), input, false);
    ModelItem(p, noLayerP, input, file, a);
    ModelItem(c, noLayerC, input, file, a);
    FieldOfWord(input);
    OpenedIsFound(items, checked, item);
  }

  lemma OpenedIsFound(items: seq<Item>, checked: seq<Item>, item: Item)
    requires item in items && item in checked && Opens(item, item.record.algorithm, item.target)
    ensures FoundIn(items, checked)
  {
    var i :| 0 <= i < |items| && items[i] == item;
    var k :| 0 <= k < |checked| && checked[k] == item;
    assert StatusIn(items, checked[k]) != NotFound;
  }

  /** The algorithms printed of a file whose path is a word are those selected. */
  lemma SelectedArePrinted(p: Flags, noLayer: bool, input: string, file: File, items: seq<Item>, a: Algorithm)
    requires Hashed(file) && Word(input) && items == Items(p, noLayer, input, file)
    ensures a in PrintedAlgorithms(items, |items|) <==> p.Has(a)
  {
    if a in PrintedAlgorithms(items, |items|) {
      PrintedIsSelected(p, noLayer, input, file, items, a);
    }
    if p.Has(a) {
      var i := ModelItemAt(p, noLayer, input, file, items, a);
      PrintedHas(items, |items|, i);
    }
  }

  lemma PrintedIsSelected(p: Flags, noLayer: bool, input: string, file: File, items: seq<Item>, a: Algorithm)
    requires items == Items(p, noLayer, input, file) && a in PrintedAlgorithms(items, |items|)
    ensures p.Has(a)
  {
    var i := PrintedAt(items, |items|, a);
    ItemsOfFile(p, noLayer, input, file, items[i]);
  }

  lemma ModelItemAt(p: Flags, noLayer: bool, input: string, file: File, items: seq<Item>, a: Algorithm) returns (i: nat)
    requires Hashed(file) && Word(input) && p.Has(a) && items == Items(p, noLayer, input, file)
    ensures i < |items| && items[i].record.algorithm == a && Fields(items[i].target) != []
  {
    WordOf(file.model, a);
    ModelItem(p, noLayer, input, file, a);
    FieldOfWord(input);
    i :| 0 <= i < |items| && items[i] == Item(Record(a, file.model.Of(a)), input, false);
  }

  lemma {:induction false} PrintedAt(items: seq<Item>, n: nat, a: Algorithm) returns (i: nat)
    requires n <= |items| && a in PrintedAlgorithms(items, n)
    ensures i < n && items[i].record.algorithm == a && Fields(items[i].target) != []
  {
    i := n - 1;
    if a in PrintedAlgorithms(items, n - 1) {
      i := PrintedAt(items, n - 1, a);
    }
  }

  lemma {:induction false} PrintedHas(items: seq<Item>, n: nat, i: nat)
    requires i < n <= |items| && Fields(items[i].target) != []
    ensures items[i].record.algorithm in PrintedAlgorithms(items, n)
  {
    if i < n - 1 {
      PrintedHas(items, n - 1, i);
    }
  }

  lemma ChosenIsShared(p: Flags, algorithms: set<Algorithm>)
    requires !p.None() && forall a :: a in algorithms <==> p.Has(a)
    ensures algorithms != {} && Share(p, Chosen(Flags(false, false, false, false), algorithms))
  {
    var a := Shared(p, p);
    assert a in algorithms;
    assert forall b: Algorithm :: b in algorithms <==> p.Has(b);
  }

  /** The choice made with no flags is one that was printed. */
  lemma ChosenWasPrinted(p: Flags, noLayer: bool, input: string, file: File)
    requires Hashed(file) && Word(input) && !p.None()
    ensures var items := Items(p, noLayer, input, file);
            var algorithms := PrintedAlgorithms(items, |items|);
            algorithms != {} && Share(p, Chosen(Flags(false, false, false, false), algorithms))
  {
    var items := Items(p, noLayer, input, file);
    forall a: Algorithm ensures a in PrintedAlgorithms(items, |items|) <==> p.Has(a) {
      SelectedArePrinted(p, noLayer, input, file, items, a);
    }
    ChosenIsShared(p, PrintedAlgorithms(items, |items|));
  }

  /** The algorithms the flags select. */
  function Selection(flags: Flags): set<Algorithm> {
    set a: Algorithm | flags.Has(a)
  }

  /** The algorithms printed of a file whose path is a word are those selected. */
  lemma SelectionIsPrinted(p: Flags, noLayer: bool, input: string, file: File)
    requires Hashed(file) && Word(input)
    ensures var items := Items(p, noLayer, input, file);
            PrintedAlgorithms(items, |items|) == Selection(p)
  {
    var items := Items(p, noLayer, input, file);
    forall a: Algorithm ensures a in PrintedAlgorithms(items, |items|) <==> p.Has(a) {
      SelectedArePrinted(p, noLayer, input, file, items, a);
    }
  }

  /** The round trip: a check of the same file misses when no algorithm is shared, which
      with the flags it was printed with, or with none, one always is; and else it succeeds
      exactly when a side leaves the tensors out or their names hold. */
  method RoundTrip(flags: Flags, noLayer: bool, checkFlags: Flags, checkNoLayer: bool, input: string, file: File)
      returns (code: int)
    requires Hashed(file) && Word(input)
    requires var lines := Printed(flags, noLayer, input, file);
             forall i :: 0 <= i < |lines| ==> |lines[i]| < MAX_LINE_BYTES
    ensures var p := Chosen(flags, {});
            var c := Chosen(checkFlags, Selection(p));
            && (checkFlags == flags || checkFlags.None() ==> Share(p, c))
            && code == if !Share(p, c) then MISSING_ENTRY
                       else if noLayer || checkNoLayer || NamesHold(file, p, c) then SUCCESS
                       else FAILURE
  {
    ghost var p := Chosen(flags, {});
    SelectionIsPrinted(p, noLayer, input, file);
    PrintedIsFound(p, noLayer, Chosen(checkFlags, Selection(p)), checkNoLayer, input, file);
    SelectionIsShared(flags, checkFlags);
    code := PrintThenCheck(flags, noLayer, checkFlags, checkNoLayer, input, file);
  }

  lemma SelectionIsShared(flags: Flags, checkFlags: Flags)
    ensures var p := Chosen(flags, {});
            && Selection(p) != {}
            && (checkFlags == flags || checkFlags.None() ==> Share(p, Chosen(checkFlags, Selection(p))))
  {
    var p := Chosen(flags, {});
    ChosenIsShared(p, Selection(p));
    if !flags.None() && checkFlags == flags {
      var a := Shared(p, p);
      HasShares(p, checkFlags, a);
    } else if checkFlags.None() {
      assert checkFlags == Flags(false, false, false, false);
    }
  }

  // ----- white space in a name --------------------------------------------------------------------

  /** No entry is of a target that holds white space, whatever was read. */
  lemma {:induction false} EntriesAreWords(lines: seq<string>, item: Item)
    requires !SpaceFree(item.target)
    ensures StatusOf(ReadLines(lines), item) == NotFound
    decreases |lines|
  {
    if lines != [] {
      var before, line := lines[..|lines| - 1], lines[|lines| - 1];
      EntriesAreWords(before, item);
      var fields := Fields(line);
      if |fields| >= 3 && Parse(fields[0]).Known? {
        FieldIsSpaceFree(line, fields[2]);
        var key := ManifestKey(Name(item.record.algorithm), item.target);
        if key == ManifestKey(fields[0], fields[2]) {
          ManifestKeyInjective(item.record.algorithm, item.target, Parse(fields[0]).algorithm, fields[2]);
        }
      }
    }
  }

  /** A file whose path holds white space is never found in a manifest, its own among them. */
  lemma SpacedInputIsNeverFound(lines: seq<string>, flags: Flags, noLayer: bool, input: string, file: File)
    requires !SpaceFree(input)
    ensures !Found(ReadLines(lines), Items(flags, noLayer, input, file))
  {
    var items := Items(flags, noLayer, input, file);
    forall i | 0 <= i < |items| ensures StatusOf(ReadLines(lines), items[i]) == NotFound {
      ItemsOfFile(flags, noLayer, input, file, items[i]);
      SpacedTarget(flags, noLayer, input, file, items[i]);
      EntriesAreWords(lines, items[i]);
    }
  }

  lemma SpacedTarget(flags: Flags, noLayer: bool, input: string, file: File, item: Item)
    requires !SpaceFree(input) && Listed(item, flags, noLayer, input, file)
    ensures !SpaceFree(item.target)
  {
    if item.tensor {
      var i :| TensorItemOf(input, file, item, i);
    }
    var k :| 0 <= k < |input| && IsSpace(input[k]);
    assert item.target[k] == input[k];
  }

  /** A later line whose target opens with another's, up to white space, takes its entry: the
      intact digest then mismatches. */
  lemma SpacedNameMismatches(a: Algorithm, t: string, u: string, d: string, e: string)
    requires Word(t) && Word(d) && Word(e) && d != e
    ensures var items := [Item(Record(a, d), t, true), Item(Record(a, e), t + " " + u, true)];
            && StatusOf(ReadLines(LinesOf(items)), items[0]) == Mismatch
            && Mismatched(ReadLines(LinesOf(items)), items)
  {
    var items := [Item(Record(a, d), t, true), Item(Record(a, e), t + " " + u, true)];
    SpacedFields(t, u);
    assert Opens(items[1], a, t);
    PrintedStatus(items, items[0]);
  }

  lemma SpacedFields(t: string, u: string)
    requires Word(t)
    ensures Fields(t + " " + u) != [] && Fields(t + " " + u)[0] == t
  {
    assert t + " " + u == t + (" " + u) && (" " + u)[0] == ' ' && WHITE_SPACE.Ends(' ');
    WordsOfWord(t, " " + u, WHITE_SPACE);
  }

  /** So a file of two tensors, the second's name the first's and more after a space, fails
      the check against its own lines, intact as it is. */
  lemma SpacedTensorFails(flags: Flags, a: Algorithm, input: string, u: string, file: File)
    requires Hashed(file) && Word(input) && flags.Has(a) && a != Uuid
    requires |file.tensors| == 2 && SpaceFree(file.tensors[0].name)
    requires file.tensors[1].name == file.tensors[0].name + " " + u
    requires file.tensors[0].values.Of(a) != file.tensors[1].values.Of(a)
    ensures var items := Items(flags, false, input, file); MismatchedIn(items, items)
  {
    var n := file.tensors[0].name;
    assert file.tensors[1].name[|n|] == ' ' && file.tensors[1].name[..|n|] == n;
    assert Takes(file.tensors[1].name, n);
    assert LastTaker(file, 0) == 1;
    PrintedIsFound(flags, false, flags, false, input, file);
  }
}
