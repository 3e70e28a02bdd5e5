/** The action library: `save_recording` (slot check, default name, overwrite)
    and `load_from_local` (validation of the persisted file), with the prompt
    answers and the clock reading passed in and the JSON text left out: a
    persisted file is the sequence of its top-level key/value pairs in
    document order. */
module ActionLibrary {
  import opened Common
  import opened Slots

  /** A saved action: its waypoints, its name and when it was saved (kept as
      the opaque `"%Y-%m-%d %H:%M:%S"` string). */
  datatype Action = Action(positions: seq<JointVector>, name: string, timestamp: string)

  /** `record_list`: slot number to action. */
  type Library = map<Slot, Action>

  /** The name an action gets when the name prompt is left empty. */
  function DefaultName(n: Slot): string
  {
    "Action_" + Decimal(n)
  }

  /** `save_recording`: with a non-empty recording and a slot answer that is a
      digit string for 1..10, the action at that slot is (over)written with the
      recording, the given name or `Action_{n}`, and the timestamp; every other
      slot is untouched. Otherwise the library does not change. */
  function Save(lib: Library, recording: seq<JointVector>, slotAnswer: string, nameAnswer: string, timestamp: string): (r: Library)
    ensures |recording| == 0 || ParseSlot(slotAnswer).None? ==> r == lib
    ensures |recording| > 0 && ParseSlot(slotAnswer).Some? ==>
      var n := ParseSlot(slotAnswer).value;
      && r.Keys == lib.Keys + {n}
      && r[n].positions == recording
      && r[n].timestamp == timestamp
      && (nameAnswer != [] ==> r[n].name == nameAnswer)
      && (nameAnswer == [] ==> r[n].name == DefaultName(n))
      && (forall m :: m in lib && m != n ==> r[m] == lib[m])
  {
    if |recording| == 0 then lib
    else
      match ParseSlot(slotAnswer)
      case None => lib
      case Some(n) =>
        lib[n := Action(recording, if nameAnswer == [] then DefaultName(n) else nameAnswer, timestamp)]
  }

  /** Saving `[[1,2,3],[4,5,6]]` at slot "3" without a name stores it as `Action_3`;
      slot "11" or an empty recording leaves the library alone. */
  lemma SaveExamples(lib: Library)
    ensures Save(lib, [[1, 2, 3], [4, 5, 6]], "3", "", "t")[3] == Action([[1, 2, 3], [4, 5, 6]], "Action_3", "t")
    ensures Save(lib, [[1, 2, 3]], "11", "wave", "t") == lib
    ensures Save(lib, [], "3", "wave", "t") == lib
  {
    ParseSlotExamples();
  }

  /** One top-level entry of the persisted file. Only the presence of the
      `positions` field is checked by the program; `name` and `timestamp` are
      carried along. */
  datatype RawEntry = RawEntry(positions: Option<seq<JointVector>>, name: string, timestamp: string)

  /** The decoded JSON object of the persisted file: key/value pairs in document order. */
  type RawFile = seq<(string, RawEntry)>

  /** Why a load was refused. */
  datatype LoadError =
    | MissingPositions(key: string)     // the `ValueError` of the validation
    | KeyNotInteger(key: string)        // `int(key)` raises `ValueError`
    | SizeChangedDuringIteration        // the dict iterator's `RuntimeError`

  /** What `int(key)` accepts here: decimal digits with an optional sign
      (Python's surrounding blanks and digit separators are not modelled). */
  predicate IsIntLiteral(k: string)
  {
    IsDigits(k) || (|k| > 1 && (k[0] == '-' || k[0] == '+') && IsDigits(k[1..]))
  }

  /** The validation loop of `load_from_local` as written, over the remaining
      entries. `inserted` records that the loop body has already added the key
      `int(key)` to the dict being iterated: CPython's dict iterator checks the
      size first on every step, the step after the last entry included, and
      raises `RuntimeError`. */
  function ScanAsWritten(file: RawFile, inserted: bool): (r: Option<LoadError>)
    ensures r.None? <==> !inserted && |file| == 0
    ensures !inserted && |file| > 0 && file[0].1.positions.Some? && IsIntLiteral(file[0].0) ==>
      r == Some(SizeChangedDuringIteration)
    decreases |file|
  {
    if inserted then Some(SizeChangedDuringIteration)
    else if |file| == 0 then None
    else if file[0].1.positions.None? then Some(MissingPositions(file[0].0))
    else if !IsIntLiteral(file[0].0) then Some(KeyNotInteger(file[0].0))
    else ScanAsWritten(file[1..], true)
  }

  /** The scan as written gets through only an empty object: the first entry
      either fails validation or is followed by the iterator's size check. */
  lemma ScanAsWrittenOnlyEmpty(file: RawFile)
    ensures ScanAsWritten(file, false).None? <==> |file| == 0
  {
  }

  /** `load_from_local` as written: a failed scan leaves `record_list` as it
      was; a successful one replaces it by the decoded object, which is then
      necessarily empty. */
  function LoadAsWritten(current: Library, file: RawFile): (r: Library)
    ensures |file| > 0 ==> r == current
    ensures |file| == 0 ==> r == map[]
  {
    ScanAsWrittenOnlyEmpty(file);
    if ScanAsWritten(file, false).Some? then current else map[]
  }

  /** A saved action as `save_to_file` writes it under its slot key. */
  function RawOf(a: Action): RawEntry
  {
    RawEntry(Some(a.positions), a.name, a.timestamp)
  }

  function ActionOf(e: RawEntry): (a: Action)
    requires e.positions.Some?
  {
    Action(e.positions.value, e.name, e.timestamp)
  }

  /** `json.dump(record_list)` for the slots up to `k`: one entry per saved
      slot, under the slot's key, holding that slot's action. */
  function SerializeUpTo(lib: Library, k: nat): (file: RawFile)
    requires k <= 10
    ensures forall i :: 0 <= i < |file| ==> ValidEntry(file[i]) && KeySlot(file[i].0).value <= k
    ensures forall i :: 0 <= i < |file| ==>
      KeySlot(file[i].0).Some? && KeySlot(file[i].0).value in lib && file[i].1 == RawOf(lib[KeySlot(file[i].0).value])
  {
    if k == 0 then []
    else
      KeySlotOfDecimal(k);
      SerializeUpTo(lib, k - 1) + (if k in lib then [(Decimal(k), RawOf(lib[k]))] else [])
  }

  /** `json.dump(record_list)`: the persisted form of a library. The entries
      come in ascending slot order here, while `json.dump` keeps the dict's
      insertion order; as every key occurs once, the order does not change
      what a load reads back. */
  function Serialize(lib: Library): (file: RawFile)
    ensures forall i :: 0 <= i < |file| ==> ValidEntry(file[i])
    ensures forall i :: 0 <= i < |file| ==>
      KeySlot(file[i].0).Some? && KeySlot(file[i].0).value in lib && file[i].1 == RawOf(lib[KeySlot(file[i].0).value])
  {
    SerializeUpTo(lib, 10)
  }

  /** An entry the intended load accepts: a canonical slot key and a `positions` field. */
  predicate ValidEntry(e: (string, RawEntry))
  {
    KeySlot(e.0).Some? && e.1.positions.Some?
  }

  /** The library a fully valid file describes, read entry by entry. */
  function Build(file: RawFile): (lib: Library)
    requires forall i :: 0 <= i < |file| ==> ValidEntry(file[i])
    ensures |file| == 0 <==> lib == map[]
    ensures forall i :: 0 <= i < |file| ==> ValidEntry(file[i]) && KeySlot(file[i].0).value in lib
  {
    if |file| == 0 then map[]
    else
      var prefix, last := file[..|file| - 1], file[|file| - 1];
      assert forall i :: 0 <= i < |prefix| ==> prefix[i] == file[i];
      assert ValidEntry(last);
      var lib := Build(prefix)[KeySlot(last.0).value := ActionOf(last.1)];
      assert KeySlot(last.0).value in lib;
      lib
  }

  /** The slots of a loaded library are exactly the slots named by the file's keys. */
  lemma {:induction false} BuildDomain(file: RawFile, n: Slot)
    requires forall i :: 0 <= i < |file| ==> ValidEntry(file[i])
    ensures n in Build(file) <==> exists i :: 0 <= i < |file| && KeySlot(file[i].0) == Some(n)
  {
    if |file| > 0 {
      var prefix := file[..|file| - 1];
      assert forall i :: 0 <= i < |prefix| ==> prefix[i] == file[i];
      BuildDomain(prefix, n);
      if n in Build(prefix) {
        var i :| 0 <= i < |prefix| && KeySlot(prefix[i].0) == Some(n);
        assert KeySlot(file[i].0) == Some(n);
      }
    }
  }

  /** The action at a slot is the one of the file's last entry for that key, as
      in a decoded JSON object. */
  lemma {:induction false} BuildLastWins(file: RawFile, i: nat)
    requires forall k :: 0 <= k < |file| ==> ValidEntry(file[k])
    requires i < |file|
    requires forall l :: i < l < |file| ==> file[l].0 != file[i].0
    ensures ValidEntry(file[i]) && KeySlot(file[i].0).value in Build(file)
    ensures Build(file)[KeySlot(file[i].0).value] == ActionOf(file[i].1)
  {
    var prefix := file[..|file| - 1];
    var last := file[|file| - 1];
    if i < |file| - 1 {
      assert forall k :: 0 <= k < |prefix| ==> prefix[k] == file[k];
      BuildLastWins(prefix, i);
      assert last.0 != file[i].0;
      assert KeySlot(last.0).value != KeySlot(file[i].0).value;
    }
  }

  /** The first entry of the file the intended load refuses, if any. */
  function Validate(file: RawFile): (r: Option<LoadError>)
    ensures r.None? <==> forall i :: 0 <= i < |file| ==> ValidEntry(file[i])
  {
    if |file| == 0 then None
    else if file[0].1.positions.None? then Some(MissingPositions(file[0].0))
    else if KeySlot(file[0].0).None? then Some(KeyNotInteger(file[0].0))
    else
      assert forall i :: 1 <= i < |file| ==> file[1..][i - 1] == file[i];
      Validate(file[1..])
  }

  /** `load_from_local` as intended: every entry must carry `positions` under a
      slot key, or the whole file is refused; a valid file gives the library it
      describes, keys normalised to slot numbers. */
  function Load(file: RawFile): (r: Result<Library, LoadError>)
    ensures r.Failure? <==> exists i :: 0 <= i < |file| && !ValidEntry(file[i])
    ensures r.Success? ==> r.value == Build(file)
  {
    match Validate(file)
    case Some(e) => Failure(e)
    case None => Success(Build(file))
  }

  /** The library after a load: the loaded one, or the current one when the file is refused. */
  function Reload(current: Library, file: RawFile): (r: Library)
    ensures (exists i :: 0 <= i < |file| && !ValidEntry(file[i])) ==> r == current
    ensures (forall i :: 0 <= i < |file| ==> ValidEntry(file[i])) ==> r == Build(file)
  {
    match Load(file)
    case Success(lib) => lib
    case Failure(_) => current
  }

  /** The slots up to `k` of a library. */
  function UpTo(lib: Library, k: nat): map<Slot, Action>
  {
    map n | n in lib && n <= k :: lib[n]
  }

  /** Reading one more entry updates its slot. */
  lemma BuildSnoc(file: RawFile, e: (string, RawEntry))
    requires forall i :: 0 <= i < |file| ==> ValidEntry(file[i])
    requires ValidEntry(e)
    ensures Build(file + [e]) == Build(file)[KeySlot(e.0).value := ActionOf(e.1)]
  {
    var longer := file + [e];
    assert longer[..|longer| - 1] == file;
  }

  /** Extending the range by slot `k` adds that slot, if the library has it. */
  lemma UpToStep(lib: Library, k: nat)
    requires 1 <= k <= 10
    ensures k in lib ==> UpTo(lib, k) == UpTo(lib, k - 1)[k := lib[k]]
    ensures k !in lib ==> UpTo(lib, k) == UpTo(lib, k - 1)
  {
  }

  /** Reading back the slots up to `k` of a written library gives those slots. */
  lemma {:induction false} BuildSerializeUpTo(lib: Library, k: nat)
    requires k <= 10
    ensures Build(SerializeUpTo(lib, k)) == UpTo(lib, k)
  {
    if k == 0 {
      assert UpTo(lib, 0) == map[];
    } else {
      BuildSerializeUpTo(lib, k - 1);
      UpToStep(lib, k);
      var prefix := SerializeUpTo(lib, k - 1);
      if k in lib {
        var e := (Decimal(k), RawOf(lib[k]));
        assert SerializeUpTo(lib, k) == prefix + [e];
        KeySlotOfDecimal(k);
        BuildSnoc(prefix, e);
      } else {
        assert SerializeUpTo(lib, k) == prefix;
      }
    }
  }

  /** Saving and loading round-trip: loading the file a library was written to
      gives back that library, every slot with identical positions. */
  lemma LoadSerializeRoundTrip(lib: Library)
    ensures Load(Serialize(lib)) == Success(lib)
  {
    BuildSerializeUpTo(lib, 10);
    assert UpTo(lib, 10) == lib;
  }

  /** As written, the load never restores a saved library: the file any
      non-empty library is written to is refused and the current library stays,
      while the intended load gives that library back. */
  lemma AsWrittenNeverRestores(current: Library, lib: Library)
    requires lib != map[]
    ensures LoadAsWritten(current, Serialize(lib)) == current
    ensures Load(Serialize(lib)) == Success(lib)
  {
    LoadSerializeRoundTrip(lib);
    assert Build([]) == map[];
  }

  /** An action saved at slot 3 is not there after the next start-up, which
      begins from an empty library, while the intended load restores it. */
  lemma SavedActionNotReloadedAsWritten()
    ensures var lib := Save(map[], [[1, 2, 3], [4, 5, 6]], "3", "", "t");
      && lib == map[3 := Action([[1, 2, 3], [4, 5, 6]], "Action_3", "t")]
      && LoadAsWritten(map[], Serialize(lib)) == map[]
      && Reload(map[], Serialize(lib)) == lib
  {
    SaveExamples(map[]);
    var lib := Save(map[], [[1, 2, 3], [4, 5, 6]], "3", "", "t");
    assert 3 in lib;
    AsWrittenNeverRestores(map[], lib);
  }
}
