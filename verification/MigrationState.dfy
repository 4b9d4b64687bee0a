/** The migration state file (migrate/internal/framework/state.go): its records, its JSON shape, Load and Save. */
module MigrationState {
  import opened Folding
  import opened Text

  datatype Kind = GPGKey | AgentPool | Notification | RunTrigger | Varset | Workspace

  /** A record of any kind; `others` are its remaining fields, which rollback carries along. */
  datatype Record = Record(terrapodID: string, state: string, createdByMigration: bool, stateSerial: int,
                           others: map<string, Json>)

  /** The six record slices of the State struct, by kind. */
  type Tables = t: map<Kind, seq<Record>> | forall k: Kind :: k in t
    witness map k: Kind :: []

  /** `header` are the fields that neither Save nor rollback writes: hosts, source, VCS connections, skipped items. */
  datatype StateValue = StateValue(version: int, createdAt: int, updatedAt: int, toolVersion: string,
                                   header: map<string, Json>, tables: Tables)

  const SCHEMA_VERSION := 1

  // ── The rollback targets ────────────────────────────────────────────────────

  predicate IsTarget(r: Record) {
    r.createdByMigration && r.terrapodID != "" && r.state != "rolled_back"
  }

  function RolledBack(r: Record): Record {
    r.(state := "rolled_back", terrapodID := "")
  }

  /** The indices below n of the records that rollback may delete, in slice order. */
  function Targets(rs: seq<Record>, n: nat): seq<nat>
    requires n <= |rs|
  {
    if n == 0 then [] else Targets(rs, n - 1) + if IsTarget(rs[n - 1]) then [n - 1] else []
  }

  /** Exactly the created, still identified, not yet rolled-back records are targets. */
  lemma {:induction false} TargetsAreExact(rs: seq<Record>, n: nat)
    requires n <= |rs|
    ensures forall i :: i in Targets(rs, n) <==>
              0 <= i < n && rs[i].createdByMigration && rs[i].terrapodID != "" && rs[i].state != "rolled_back"
    ensures Targets(rs, n) == [] <==> forall i :: 0 <= i < n ==> !IsTarget(rs[i])
  {
    if n > 0 {
      TargetsAreExact(rs, n - 1);
      var before, last := Targets(rs, n - 1), if IsTarget(rs[n - 1]) then [n - 1] else [];
      assert Targets(rs, n) == before + last;
      forall i ensures i in Targets(rs, n) <==> 0 <= i < n && IsTarget(rs[i]) {
        assert i in before + last <==> i in before || i in last;
      }
      assert Targets(rs, n) != [] ==> Targets(rs, n)[0] in Targets(rs, n);
    }
  }

  predicate Rising(xs: seq<nat>) {
    forall a, b :: 0 <= a < b < |xs| ==> xs[a] < xs[b]
  }

  predicate Below(xs: seq<nat>, n: nat) {
    forall a :: 0 <= a < |xs| ==> xs[a] < n
  }

  lemma RisingMore(xs: seq<nat>, n: nat)
    requires Rising(xs) && Below(xs, n)
    ensures Rising(xs + [n])
  {
  }

  lemma TargetsBelow(rs: seq<Record>, n: nat)
    requires n <= |rs|
    ensures Below(Targets(rs, n), n)
  {
    TargetsAreExact(rs, n);
    var ts := Targets(rs, n);
    forall a | 0 <= a < |ts| ensures ts[a] < n { assert ts[a] in ts; }
  }

  lemma {:induction false} TargetsRise(rs: seq<Record>, n: nat)
    requires n <= |rs|
    ensures Rising(Targets(rs, n))
  {
    if n > 0 {
      TargetsRise(rs, n - 1);
      TargetsBelow(rs, n - 1);
      RisingMore(Targets(rs, n - 1), n - 1);
    }
  }

  /** No record is visited twice. */
  lemma TargetsAscend(rs: seq<Record>, n: nat)
    requires n <= |rs|
    ensures forall a, b :: 0 <= a < b < |Targets(rs, n)| ==> Targets(rs, n)[a] < Targets(rs, n)[b]
  {
    TargetsRise(rs, n);
  }

  // ── JSON ────────────────────────────────────────────────────────────────────

  datatype Key =
    | VersionKey | CreatedAtKey | UpdatedAtKey | ToolVersionKey | RecordsKey(kind: Kind)
    | TerrapodIDKey | StateKey | CreatedByMigrationKey | StateSerialKey
    | Other(name: string)

  datatype Json =
    JStr(s: string) | JInt(n: int) | JBool(b: bool) | JArr(items: seq<Json>) | JObj(fields: map<Key, Json>)

  function With(o: map<Key, Json>, k: Key, present: bool, v: Json): map<Key, Json> {
    if present then o[k := v] else o
  }

  function Others(m: map<string, Json>): map<Key, Json> {
    map k | k in (set n | n in m :: Other(n)) :: m[k.name]
  }

  function OthersOf(o: map<Key, Json>): map<string, Json> {
    map n | n in (set k | k in o && k.Other? :: k.name) :: o[Other(n)]
  }

  /** `omitempty` drops every zero-valued field but "state". */
  function EncodeRecord(r: Record): Json {
    var o := With(Others(r.others), TerrapodIDKey, r.terrapodID != "", JStr(r.terrapodID));
    var o := With(o, StateKey, true, JStr(r.state));
    var o := With(o, CreatedByMigrationKey, r.createdByMigration, JBool(true));
    JObj(With(o, StateSerialKey, r.stateSerial != 0, JInt(r.stateSerial)))
  }

  function StringField(o: map<Key, Json>, k: Key): Option<string> {
    if k !in o then Some("") else if o[k].JStr? then Some(o[k].s) else None
  }

  function IntField(o: map<Key, Json>, k: Key): Option<int> {
    if k !in o then Some(0) else if o[k].JInt? then Some(o[k].n) else None
  }

  function BoolField(o: map<Key, Json>, k: Key): Option<bool> {
    if k !in o then Some(false) else if o[k].JBool? then Some(o[k].b) else None
  }

  /** Absent fields are zero-filled; a field of the wrong type fails the whole parse. */
  function DecodeRecord(j: Json): Option<Record> {
    if !j.JObj? then None else
    var id, st := StringField(j.fields, TerrapodIDKey), StringField(j.fields, StateKey);
    var created, serial := BoolField(j.fields, CreatedByMigrationKey), IntField(j.fields, StateSerialKey);
    if id.Some? && st.Some? && created.Some? && serial.Some?
    then Some(Record(id.value, st.value, created.value, serial.value, OthersOf(j.fields)))
    else None
  }

  function EncodeRecords(rs: seq<Record>): seq<Json> {
    seq(|rs|, i requires 0 <= i < |rs| => EncodeRecord(rs[i]))
  }

  function DecodeRecords(js: seq<Json>): Option<seq<Record>> {
    Traverse(DecodeRecord, js)
  }

  function RecordsField(o: map<Key, Json>, k: Kind): Option<seq<Record>> {
    if RecordsKey(k) !in o then Some([])
    else if o[RecordsKey(k)].JArr? then DecodeRecords(o[RecordsKey(k)].items)
    else None
  }

  function EncodeTables(t: Tables): map<Key, Json> {
    map k | k in (set kind: Kind | t[kind] != [] :: RecordsKey(kind)) :: JArr(EncodeRecords(t[k.kind]))
  }

  function Body(header: map<string, Json>, t: Tables): map<Key, Json> {
    Others(header) + EncodeTables(t)
  }

  function WithScalars(o: map<Key, Json>, version: int, created: int, updated: int, tool: string): map<Key, Json> {
    o[VersionKey := JInt(version)][CreatedAtKey := JInt(created)][UpdatedAtKey := JInt(updated)]
     [ToolVersionKey := JStr(tool)]
  }

  function EncodeState(v: StateValue): Json {
    JObj(WithScalars(Body(v.header, v.tables), v.version, v.createdAt, v.updatedAt, v.toolVersion))
  }

  function DecodeState(j: Json): Option<StateValue> {
    if !j.JObj? then None else
    var o := j.fields;
    var version, created := IntField(o, VersionKey), IntField(o, CreatedAtKey);
    var updated, tool := IntField(o, UpdatedAtKey), StringField(o, ToolVersionKey);
    if version.Some? && created.Some? && updated.Some? && tool.Some? && (forall k: Kind :: RecordsField(o, k).Some?)
    then Some(StateValue(version.value, created.value, updated.value, tool.value, OthersOf(o),
                         map k: Kind :: RecordsField(o, k).value))
    else None
  }

  lemma OthersRoundTrip(m: map<string, Json>, o: map<Key, Json>)
    requires forall k: Key :: k.Other? ==> (k in o <==> k in Others(m))
    requires forall k: Key :: k.Other? && k in o ==> o[k] == Others(m)[k]
    ensures OthersOf(o) == m
  {
    forall n ensures n in OthersOf(o) <==> n in m {
      assert Other(n) in Others(m) <==> n in m;
    }
    forall n | n in m ensures OthersOf(o)[n] == m[n] {
      assert Other(n) in Others(m);
    }
    assert OthersOf(o).Keys == m.Keys;
  }

  lemma EncodedFields(r: Record)
    ensures var o := EncodeRecord(r).fields;
            && StringField(o, TerrapodIDKey) == Some(r.terrapodID) && StringField(o, StateKey) == Some(r.state)
            && BoolField(o, CreatedByMigrationKey) == Some(r.createdByMigration)
            && IntField(o, StateSerialKey) == Some(r.stateSerial)
  {
  }

  lemma EncodedOthers(r: Record)
    ensures OthersOf(EncodeRecord(r).fields) == r.others
  {
    OthersRoundTrip(r.others, EncodeRecord(r).fields);
  }

  lemma RecordRoundTrip(r: Record)
    ensures DecodeRecord(EncodeRecord(r)) == Some(r)
  {
    EncodedFields(r);
    EncodedOthers(r);
  }

  lemma RecordsRoundTrip(rs: seq<Record>)
    ensures DecodeRecords(EncodeRecords(rs)) == Some(rs)
  {
    forall i | 0 <= i < |rs| ensures DecodeRecord(EncodeRecords(rs)[i]) == Some(rs[i]) {
      RecordRoundTrip(rs[i]);
    }
    TraverseIs(DecodeRecord, EncodeRecords(rs), rs);
  }

  lemma BodyKeys(header: map<string, Json>, t: Tables, k: Key)
    ensures k in Body(header, t) <==> (k.Other? && k.name in header) || (k.RecordsKey? && t[k.kind] != [])
    ensures k.Other? && k.name in header ==> Body(header, t)[k] == header[k.name]
    ensures k.RecordsKey? && t[k.kind] != [] ==> Body(header, t)[k] == JArr(EncodeRecords(t[k.kind]))
  {
  }

  lemma ScalarsKeepTheRest(o: map<Key, Json>, version: int, created: int, updated: int, tool: string, k: Key)
    requires k.Other? || k.RecordsKey?
    ensures var o' := WithScalars(o, version, created, updated, tool);
            (k in o' <==> k in o) && (k in o' ==> o'[k] == o[k])
  {
  }

  lemma EncodedHeader(v: StateValue)
    ensures OthersOf(EncodeState(v).fields) == v.header
  {
    var o := EncodeState(v).fields;
    forall k: Key | k.Other?
      ensures k in o <==> k in Others(v.header)
      ensures k in o ==> o[k] == Others(v.header)[k]
    {
      ScalarsKeepTheRest(Body(v.header, v.tables), v.version, v.createdAt, v.updatedAt, v.toolVersion, k);
      BodyKeys(v.header, v.tables, k);
    }
    OthersRoundTrip(v.header, o);
  }

  lemma EncodedTable(v: StateValue, k: Kind)
    ensures RecordsField(EncodeState(v).fields, k) == Some(v.tables[k])
  {
    ScalarsKeepTheRest(Body(v.header, v.tables), v.version, v.createdAt, v.updatedAt, v.toolVersion, RecordsKey(k));
    BodyKeys(v.header, v.tables, RecordsKey(k));
    RecordsRoundTrip(v.tables[k]);
  }

  lemma EncodedScalars(v: StateValue)
    ensures var o := EncodeState(v).fields;
            && IntField(o, VersionKey) == Some(v.version) && IntField(o, CreatedAtKey) == Some(v.createdAt)
            && IntField(o, UpdatedAtKey) == Some(v.updatedAt) && StringField(o, ToolVersionKey) == Some(v.toolVersion)
  {
  }

  /** Writing a state as JSON and reading it back gives the same state, whatever fields `omitempty` dropped. */
  lemma StateRoundTrip(v: StateValue)
    ensures DecodeState(EncodeState(v)) == Some(v)
  {
    EncodedHeader(v);
    EncodedScalars(v);
    var o := EncodeState(v).fields;
    forall k: Kind ensures RecordsField(o, k) == Some(v.tables[k]) {
      EncodedTable(v, k);
    }
    DecodedTables(o, v.tables);
  }

  lemma DecodedTables(o: map<Key, Json>, t: Tables)
    requires forall k: Kind :: RecordsField(o, k) == Some(t[k])
    ensures (map k: Kind :: RecordsField(o, k).value) == t
  {
  }

  /** A JSON document whose records all lack "created_by_migration". */
  ghost predicate LacksProvenance(j: Json) {
    j.JObj? && forall k: Kind, i ::
      RecordsKey(k) in j.fields && j.fields[RecordsKey(k)].JArr? && 0 <= i < |j.fields[RecordsKey(k)].items| ==>
        var item := j.fields[RecordsKey(k)].items[i];
        item.JObj? ==> CreatedByMigrationKey !in item.fields
  }

  /** A file from before the provenance field yields no rollback target of any kind. */
  lemma LegacyFileHasNoTargets(j: Json, k: Kind)
    requires LacksProvenance(j) && DecodeState(j).Some?
    ensures var rs := DecodeState(j).value.tables[k]; Targets(rs, |rs|) == []
  {
    var rs := DecodeState(j).value.tables[k];
    assert RecordsField(j.fields, k) == Some(rs);
    if RecordsKey(k) in j.fields {
      TraverseIs(DecodeRecord, j.fields[RecordsKey(k)].items, rs);
    }
    TargetsAreExact(rs, |rs|);
  }

  // ── Files ───────────────────────────────────────────────────────────────────

  type Files = map<string, Bytes>

  /** The text layer of JSON; only its round trip matters here. */
  datatype Codec = Codec(render: Json -> Bytes, parse: Bytes -> Option<Json>)

  ghost predicate Faithful(c: Codec) {
    forall j: Json :: c.parse(c.render(j)) == Some(j)
  }

  datatype LoadResult = Missing | ParseError | UnknownSchema | FutureSchema | Loaded(value: StateValue)

  function LoadValue(c: Codec, files: Files, path: string): LoadResult {
    if path !in files then Missing else
    var j := c.parse(files[path]);
    if j.None? then ParseError else
    var v := DecodeState(j.value);
    if v.None? then ParseError
    else if v.value.version <= 0 then UnknownSchema
    else if v.value.version > SCHEMA_VERSION then FutureSchema
    else Loaded(v.value)
  }

  /** Where a Save stops: nowhere, at a failing system call, or because the process dies. */
  datatype Fault =
    | NoFault
    | CreateFails | WriteFails(written: nat) | ChmodFails | CloseFails | RenameFails
    | DiesBeforeCreate | DiesWriting(written: nat) | DiesBeforeRename | DiesAfterRename

  datatype SaveResult = Saved | SaveFailed | SaveDied

  /** What the environment decides in one Save: the temporary name, the fault, whether cleanup works, and the clock. */
  datatype SaveChoice = SaveChoice(tmp: string, fault: Fault, cleanup: bool, now: int)

  function Prefix(data: Bytes, n: nat): Bytes {
    if n <= |data| then data[..n] else data
  }

  /** The housekeeping fields. */
  function Stamp(v: StateValue, toolVersion: string, now: int): StateValue {
    v.(version := SCHEMA_VERSION,
       createdAt := if v.createdAt == 0 then now else v.createdAt,
       updatedAt := now,
       toolVersion := if toolVersion != "" then toolVersion else v.toolVersion)
  }

  /** `os.CreateTemp` opens exclusively, so an existing name is a failure to create. */
  predicate CreatesTemp(files: Files, c: SaveChoice) {
    c.tmp !in files && !c.fault.CreateFails?
  }

  function Cleaned(files: Files, c: SaveChoice): Files {
    if c.cleanup then files - {c.tmp} else files
  }

  function SaveFiles(files: Files, path: string, data: Bytes, c: SaveChoice): (Files, SaveResult) {
    if c.fault.DiesBeforeCreate? then (files, SaveDied) else
    if !CreatesTemp(files, c) then (files, SaveFailed) else
    match c.fault
    case WriteFails(n) => (Cleaned(files[c.tmp := Prefix(data, n)], c), SaveFailed)
    case DiesWriting(n) => (files[c.tmp := Prefix(data, n)], SaveDied)
    case ChmodFails => (Cleaned(files[c.tmp := data], c), SaveFailed)
    case CloseFails => (Cleaned(files[c.tmp := data], c), SaveFailed)
    case RenameFails => (Cleaned(files[c.tmp := data], c), SaveFailed)
    case DiesBeforeRename => (files[c.tmp := data], SaveDied)
    case DiesAfterRename => ((files[c.tmp := data] - {c.tmp})[path := data], SaveDied)
    case _ => (Cleaned((files[c.tmp := data] - {c.tmp})[path := data], c), Saved)
  }

  /** Nothing goes wrong in a Save: its temporary name is free and no step fails or dies. */
  predicate GetsThrough(files: Files, c: SaveChoice) {
    c.tmp !in files && c.fault == NoFault
  }

  lemma SavedExactly(files: Files, path: string, data: Bytes, c: SaveChoice)
    ensures SaveFiles(files, path, data, c).1 == Saved <==> GetsThrough(files, c)
  {
  }

  /**
   * At every point where a Save can stop, the target holds its complete old bytes or the complete new ones: the new
   * ones after success, the old ones after a failure. No other file but the temporary changes, and after success that
   * one is gone too.
   */
  lemma SaveIsAtomic(files: Files, path: string, data: Bytes, c: SaveChoice)
    requires c.tmp != path
    ensures var (files', r) := SaveFiles(files, path, data, c);
            && (files' - {c.tmp} == files - {c.tmp} || files' - {c.tmp} == files[path := data] - {c.tmp})
            && (r == Saved ==> files' == files[path := data])
            && (r == SaveFailed ==> files' - {c.tmp} == files - {c.tmp} && (c.cleanup ==> files' == files))
  {
  }

  /** Save's promise needs the temporary name to differ from the target, which O_EXCL gives once the target exists. */
  lemma SaveKeepsItsFile(files: Files, path: string, data: Bytes, c: SaveChoice)
    requires c.fault == NoFault && c.cleanup && c.tmp !in files
    ensures var (files', r) := SaveFiles(files, path, data, c);
            r == Saved && ((path in files' && files'[path] == data) <==> c.tmp != path)
  {
  }

  /** After a successful Save, Load returns the saved records, at version 1, with the creation time kept once set. */
  lemma SaveThenLoad(codec: Codec, files: Files, path: string, v: StateValue, toolVersion: string, c: SaveChoice)
    requires Faithful(codec) && c.tmp != path
    ensures var (files', r) := SaveFiles(files, path, codec.render(EncodeState(Stamp(v, toolVersion, c.now))), c);
            r == Saved ==>
              var l := LoadValue(codec, files', path);
              && l.Loaded? && l.value == Stamp(v, toolVersion, c.now)
              && l.value.tables == v.tables && l.value.header == v.header && l.value.version == 1
              && l.value.updatedAt == c.now && (v.createdAt == 0 ==> l.value.createdAt == c.now)
              && l.value.toolVersion == (if toolVersion == "" then v.toolVersion else toolVersion)
              && (v.createdAt != 0 ==> l.value.createdAt == v.createdAt)
  {
    StateRoundTrip(Stamp(v, toolVersion, c.now));
    SaveIsAtomic(files, path, codec.render(EncodeState(Stamp(v, toolVersion, c.now))), c);
  }

  // ── The order of the records ────────────────────────────────────────────────

  /** The `source_name` of a record, "" if it has none. */
  function SourceName(r: Record): string {
    if "source_name" in r.others && r.others["source_name"].JStr? then r.others["source_name"].s else ""
  }

  predicate SortedByName(rs: seq<Record>) {
    forall i, j :: 0 <= i < j < |rs| ==> !Less(SourceName(rs[j]), SourceName(rs[i]))
  }

  /** The workspaces are "sorted by SourceName on every save" exactly when they were before: Save keeps the order. */
  lemma SavedOrderExactly(codec: Codec, files: Files, path: string, v: StateValue, toolVersion: string, c: SaveChoice)
    requires Faithful(codec) && c.tmp != path
    ensures var (files', r) := SaveFiles(files, path, codec.render(EncodeState(Stamp(v, toolVersion, c.now))), c);
            r == Saved ==>
              var l := LoadValue(codec, files', path);
              l.Loaded? && (SortedByName(l.value.tables[Workspace]) <==> SortedByName(v.tables[Workspace]))
  {
    SaveThenLoad(codec, files, path, v, toolVersion, c);
  }

  /** A record of which only the name matters. */
  function Named(name: string): Record {
    Record("", "", false, 0, map["source_name" := JStr(name)])
  }

  lemma BeforeA(ws: seq<Record>)
    requires ws == [Named("b"), Named("a")]
    ensures !SortedByName(ws)
  {
    assert SourceName(ws[1]) == "a" && SourceName(ws[0]) == "b" && Less("a", "b");
  }

  /** Two workspaces recorded as "b", "a" are saved as "b", "a", whatever else the state holds. */
  lemma UnsortedIsSavedUnsorted(codec: Codec, path: string, any: StateValue, c: SaveChoice) returns (v: StateValue)
    requires Faithful(codec) && c.tmp != path && c.fault == NoFault
    ensures v == any.(tables := any.tables[Workspace := [Named("b"), Named("a")]])
    ensures var (files, r) := SaveFiles(map[], path, codec.render(EncodeState(Stamp(v, "", c.now))), c);
            r == Saved && var l := LoadValue(codec, files, path);
            l.Loaded? && !SortedByName(l.value.tables[Workspace])
  {
    v := any.(tables := any.tables[Workspace := [Named("b"), Named("a")]]);
    BeforeA(v.tables[Workspace]);
    SavedOrderExactly(codec, map[], path, v, "", c);
  }

  // ── The State struct and its methods ────────────────────────────────────────

  class FileSystem {
    var files: Files

    constructor (files: Files)
      ensures this.files == files
    {
      this.files := files;
    }

    /** The second half of Save: temporary file, write, chmod, close, rename, deferred removal. */
    method Replace(path: string, data: Bytes, c: SaveChoice) returns (r: SaveResult)
      modifies this
      ensures (files, r) == SaveFiles(old(files), path, data, c)
    {
      if c.fault.DiesBeforeCreate? { return SaveDied; }
      if c.fault.CreateFails? || c.tmp in files { return SaveFailed; }
      files := files[c.tmp := []];
      match c.fault {
        case WriteFails(n) =>
          files := files[c.tmp := Prefix(data, n)];
          assert files == old(files)[c.tmp := Prefix(data, n)];
          files := Cleaned(files, c);
          return SaveFailed;
        case DiesWriting(n) =>
          files := files[c.tmp := Prefix(data, n)];
          assert files == old(files)[c.tmp := Prefix(data, n)];
          return SaveDied;
        case _ =>
      }
      files := files[c.tmp := data];
      assert files == old(files)[c.tmp := data];
      if c.fault.DiesBeforeRename? { return SaveDied; }
      if c.fault.ChmodFails? || c.fault.CloseFails? || c.fault.RenameFails? {
        files := Cleaned(files, c);
        return SaveFailed;
      }
      files := (files - {c.tmp})[path := data];
      if c.fault.DiesAfterRename? { return SaveDied; }
      files := Cleaned(files, c);
      return Saved;
    }
  }

  class State {
    var version: int
    var createdAt: int
    var updatedAt: int
    var toolVersion: string
    var header: map<string, Json>
    var tables: Tables

    function Value(): StateValue
      reads this
    {
      StateValue(version, createdAt, updatedAt, toolVersion, header, tables)
    }

    constructor (v: StateValue)
      ensures Value() == v
    {
      version, createdAt, updatedAt, toolVersion, header, tables :=
        v.version, v.createdAt, v.updatedAt, v.toolVersion, v.header, v.tables;
    }

    /** What the bytes of a file hold, if they parse as a document of the right shape. */
    static function Document(codec: Codec, data: Bytes): Option<StateValue> {
      var j := codec.parse(data);
      if j.None? then None else DecodeState(j.value)
    }

    /** Absent, unparsable, of an unknown or a future version, or - at exactly this version - the state. */
    static method Load(codec: Codec, fs: FileSystem, path: string) returns (r: LoadResult, s: State?)
      ensures r.Missing? <==> path !in fs.files
      ensures r.ParseError? <==> path in fs.files && Document(codec, fs.files[path]).None?
      ensures r.Loaded? <==> path in fs.files && Document(codec, fs.files[path]).Some?
                             && Document(codec, fs.files[path]).value.version == 1
      ensures r.UnknownSchema? ==> Document(codec, fs.files[path]).value.version <= 0
      ensures r.FutureSchema? ==> Document(codec, fs.files[path]).value.version > 1
      ensures r.Loaded? ==> r.value == Document(codec, fs.files[path]).value
      ensures r.Loaded? <==> s != null
      ensures s != null ==> fresh(s) && s.Value() == r.value
      ensures r == LoadValue(codec, fs.files, path)
    {
      s := null;
      if path !in fs.files { return Missing, null; }
      var v := Document(codec, fs.files[path]);
      if v.None? { return ParseError, null; }
      if v.value.version <= 0 { return UnknownSchema, null; }
      if v.value.version > SCHEMA_VERSION { return FutureSchema, null; }
      s := new State(v.value);
      r := Loaded(v.value);
    }

    /** The housekeeping fields are updated even when nothing reaches the disk. */
    method Save(codec: Codec, fs: FileSystem, path: string, tool: string, c: SaveChoice) returns (r: SaveResult)
      modifies this`version, this`createdAt, this`updatedAt, this`toolVersion, fs
      ensures Value() == Stamp(old(Value()), tool, c.now)
      ensures (fs.files, r) == SaveFiles(old(fs.files), path, codec.render(EncodeState(Value())), c)
    {
      if createdAt == 0 {
        createdAt := c.now;
      }
      updatedAt := c.now;
      if tool != "" {
        toolVersion := tool;
      }
      version := SCHEMA_VERSION;
      assert Value() == Stamp(old(Value()), tool, c.now);
      r := fs.Replace(path, codec.render(EncodeState(Value())), c);
    }

    /** The target functions of all six kinds: indices into the slice, since the source returns pointers into it. */
    method RollbackTargets(k: Kind) returns (out: seq<nat>)
      ensures out == Targets(tables[k], |tables[k]|)
    {
      out := [];
      for i := 0 to |tables[k]|
        invariant out == Targets(tables[k], i)
      {
        if IsTarget(tables[k][i]) {
          out := out + [i];
        }
      }
    }
  }
}
