/**
 * The dedupe store's value logic: what `load_state` makes of the state
 * file, and the document `save_state` writes. Reading and writing the file
 * (and the JSON text itself) are outside this model: the file is seen
 * through what parsing it produced.
 */
module State {
  import opened Base

  /** The dedupe state: a version number and the seen records by key. */
  datatype DedupeState = DedupeState(version: int, seen: map<string, Json>)

  /** What the state path holds when it is loaded. */
  datatype StateFile =
    | Absent                // no file at the path
    | Unparseable           // a file whose text is not JSON (json.load raises)
    | Parsed(payload: Json) // a file holding this JSON document

  datatype LoadError = CorruptStateFile

  /** A loaded state and whether the file existed. */
  datatype Loaded = Loaded(state: DedupeState, existed: bool)

  const CurrentVersion := 1

  /** The store used when there is no file yet. */
  const FreshState := DedupeState(CurrentVersion, map[])

  /** `payload.get("seen", {})` for an object payload, `{}` otherwise, and
      `{}` again when that is not an object. */
  function SeenOf(payload: Json): map<string, Json> {
    var seen :=
      if payload.JObject? && "seen" in payload.fields then payload.fields["seen"]
      else JObject(map[]);
    if seen.JObject? then seen.fields else map[]
  }

  /** `load_state`. */
  function LoadState(file: StateFile): (r: Result<Loaded, LoadError>)
    ensures r.Err? <==> file.Unparseable?
    ensures r.Ok? ==> r.value.state.version == CurrentVersion
    ensures r.Ok? ==> (r.value.existed <==> file.Parsed?)
    ensures file.Absent? ==> r.value.state.seen == map[]
    ensures file.Parsed? ==>
              var p := file.payload;
              if p.JObject? && "seen" in p.fields && p.fields["seen"].JObject?
              then r.value.state.seen == p.fields["seen"].fields
              else r.value.state.seen == map[]
  {
    match file
    case Absent => Ok(Loaded(FreshState, false))
    case Unparseable => Err(CorruptStateFile)
    case Parsed(p) => Ok(Loaded(DedupeState(CurrentVersion, SeenOf(p)), true))
  }

  /** The document `save_state` writes for a state. */
  function StateJson(s: DedupeState): Json {
    JObject(map["version" := JInt(s.version), "seen" := JObject(s.seen)])
  }

  /** Loading what was saved gives the saved state back, flagged as existing. */
  lemma SaveLoadRoundTrip(s: DedupeState)
    requires s.version == CurrentVersion
    ensures LoadState(Parsed(StateJson(s))) == Ok(Loaded(s, true))
  {
    var p := StateJson(s);
    assert "seen" in p.fields && p.fields["seen"] == JObject(s.seen);
  }

  /** Saving a loaded state and loading it again changes nothing but the
      existence flag: loading already normalises the state. */
  lemma LoadSaveLoad(file: StateFile)
    requires LoadState(file).Ok?
    ensures var s := LoadState(file).value.state;
            LoadState(Parsed(StateJson(s))) == Ok(Loaded(s, true))
  {
    SaveLoadRoundTrip(LoadState(file).value.state);
  }

  /** The test suite's scenario: no file gives an empty, non-existing store;
      a saved store with key "k1" loads back with "k1" seen. */
  lemma StateExample(record: Json)
    ensures LoadState(Absent) == Ok(Loaded(DedupeState(1, map[]), false))
    ensures var s := DedupeState(1, map["k1" := record]);
            var r := LoadState(Parsed(StateJson(s)));
            r.Ok? && r.value.existed && "k1" in r.value.state.seen
  {
    SaveLoadRoundTrip(DedupeState(1, map["k1" := record]));
  }
}
