/** Index specifications as the catalog keeps them, and the JSON they are stored as. */
module CatalogRows {
  import opened Values

  /** The keys of a stored specification object. */
  datatype Field =
    | FName | FSortAttr | FSortType | FSortPgCol | FIndexName | FProjectionType | FNonKeyAttrs | FServeable | FReason
    | FPartitionAttr | FPartitionType | FPartitionPgCol | FMode | FOther(key: string)

  datatype Json = JNull | JBool(b: bool) | Str(s: string) | Arr(items: seq<Json>) | Obj(fields: map<Field, Json>)

  datatype LsiSpec = LsiSpec(
    name: string, sortAttr: string, sortType: KeyType, sortPgCol: string, indexName: string,
    projectionType: Option<string>, nonKeyAttrs: Option<seq<string>>, serveable: bool, reason: Option<string>)

  datatype GsiMode = Generated | DualWrite

  datatype GsiSpec = GsiSpec(
    name: string, partitionAttr: string, partitionType: KeyType, partitionPgCol: string,
    sortAttr: Option<string>, sortType: Option<KeyType>, sortPgCol: Option<string>, indexName: string,
    projectionType: Option<string>, nonKeyAttrs: Option<seq<string>>, mode: GsiMode, serveable: bool, reason: Option<string>)

  // ----- fields ---------------------------------------------------------------------------

  function KeyTypeStr(t: KeyType): string {
    match t case KeyS => "S" case KeyN => "N" case KeyB => "B"
  }

  function ParseKeyType(s: string): Option<KeyType> {
    if s == "S" then Some(KeyS) else if s == "N" then Some(KeyN) else if s == "B" then Some(KeyB) else None
  }

  function ModeStr(m: GsiMode): string {
    match m case Generated => "generated" case DualWrite => "dual_write"
  }

  function ParseMode(s: string): Option<GsiMode> {
    if s == "generated" then Some(Generated) else if s == "dual_write" then Some(DualWrite) else None
  }

  function OptStr(x: Option<string>): Json {
    match x case None => JNull case Some(s) => Str(s)
  }

  function StrList(ss: seq<string>): (r: seq<Json>)
    ensures |r| == |ss|
  {
    seq(|ss|, i requires 0 <= i < |ss| => Str(ss[i]))
  }

  function OptList(x: Option<seq<string>>): Json {
    match x case None => JNull case Some(ss) => Arr(StrList(ss))
  }

  /** A string field; a missing, null or non-string one reads as absent. */
  function ReadStr(o: map<Field, Json>, key: Field): Option<string> {
    if key in o && o[key].Str? then Some(o[key].s) else None
  }

  function ReadKeyType(o: map<Field, Json>, key: Field): Option<KeyType> {
    match ReadStr(o, key) case None => None case Some(s) => ParseKeyType(s)
  }

  function Strings(items: seq<Json>): seq<string> {
    if items == [] then []
    else
      var front, last := Strings(items[..|items| - 1]), items[|items| - 1];
      if last.Str? then front + [last.s] else front
  }

  function ReadList(o: map<Field, Json>, key: Field): Option<seq<string>> {
    if key in o && o[key].Arr? then Some(Strings(o[key].items)) else None
  }

  predicate ReadBool(o: map<Field, Json>, key: Field) { key in o && o[key] == JBool(true) }

  // ----- one specification -----------------------------------------------------------------

  function LsiToJson(l: LsiSpec): Json {
    Obj(map[
          FName := Str(l.name), FSortAttr := Str(l.sortAttr), FSortType := Str(KeyTypeStr(l.sortType)),
          FSortPgCol := Str(l.sortPgCol), FIndexName := Str(l.indexName),
          FProjectionType := OptStr(l.projectionType), FNonKeyAttrs := OptList(l.nonKeyAttrs),
          FServeable := JBool(l.serveable), FReason := OptStr(l.reason)])
  }

  function LsiFromJson(v: Json): Option<LsiSpec> {
    if !v.Obj? then None
    else
      var o := v.fields;
      var name, sortAttr, sortType := ReadStr(o, FName), ReadStr(o, FSortAttr), ReadKeyType(o, FSortType);
      var sortPgCol, indexName := ReadStr(o, FSortPgCol), ReadStr(o, FIndexName);
      if name.None? || sortAttr.None? || sortType.None? || sortPgCol.None? || indexName.None? then None
      else Some(LsiSpec(name.value, sortAttr.value, sortType.value, sortPgCol.value, indexName.value,
                        ReadStr(o, FProjectionType), ReadList(o, FNonKeyAttrs),
                        ReadBool(o, FServeable), ReadStr(o, FReason)))
  }

  function GsiToJson(g: GsiSpec): Json {
    Obj(map[
          FName := Str(g.name), FPartitionAttr := Str(g.partitionAttr),
          FPartitionType := Str(KeyTypeStr(g.partitionType)), FPartitionPgCol := Str(g.partitionPgCol),
          FSortAttr := OptStr(g.sortAttr),
          FSortType := (match g.sortType case None => JNull case Some(t) => Str(KeyTypeStr(t))),
          FSortPgCol := OptStr(g.sortPgCol), FIndexName := Str(g.indexName),
          FProjectionType := OptStr(g.projectionType), FNonKeyAttrs := OptList(g.nonKeyAttrs),
          FMode := Str(ModeStr(g.mode)), FServeable := JBool(g.serveable), FReason := OptStr(g.reason)])
  }

  /** Absent and null read as no sort key; anything but a known type name is malformed. */
  function ReadSortType(o: map<Field, Json>): Option<Option<KeyType>> {
    if FSortType !in o || o[FSortType].JNull? then Some(None)
    else match ReadKeyType(o, FSortType) case None => None case Some(t) => Some(Some(t))
  }

  /** Rows older than the field read as Generated. */
  function ReadMode(o: map<Field, Json>): Option<GsiMode> {
    if FMode !in o || o[FMode].JNull? then Some(Generated)
    else match ReadStr(o, FMode) case None => None case Some(s) => ParseMode(s)
  }

  function GsiFromJson(v: Json): Option<GsiSpec> {
    if !v.Obj? then None
    else
      var o := v.fields;
      var name, partAttr, partType := ReadStr(o, FName), ReadStr(o, FPartitionAttr), ReadKeyType(o, FPartitionType);
      var partCol, indexName := ReadStr(o, FPartitionPgCol), ReadStr(o, FIndexName);
      var sortType, mode := ReadSortType(o), ReadMode(o);
      if name.None? || partAttr.None? || partType.None? || partCol.None? || indexName.None? || sortType.None? || mode.None?
      then None
      else Some(GsiSpec(name.value, partAttr.value, partType.value, partCol.value, ReadStr(o, FSortAttr), sortType.value,
                        ReadStr(o, FSortPgCol), indexName.value, ReadStr(o, FProjectionType),
                        ReadList(o, FNonKeyAttrs), mode.value, ReadBool(o, FServeable),
                        ReadStr(o, FReason)))
  }

  // ----- lists of specifications -----------------------------------------------------------------

  /** Every element read, or nothing: one malformed element fails the list. */
  function ReadAll<T>(read: Json -> Option<T>, items: seq<Json>): (r: Option<seq<T>>)
    ensures r.Some? ==> |r.value| == |items| && forall i :: 0 <= i < |items| ==> read(items[i]) == Some(r.value[i])
    ensures r.None? ==> exists i :: 0 <= i < |items| && read(items[i]) == None
  {
    if items == [] then Some([])
    else
      var front, last := ReadAll(read, items[..|items| - 1]), read(items[|items| - 1]);
      if front.None? then
        assert exists i :: 0 <= i < |items| && read(items[i]) == None by {
          var i :| 0 <= i < |items| - 1 && read(items[..|items| - 1][i]) == None;
          assert read(items[i]) == None;
        }
        None
      else if last.None? then None
      else Some(front.value + [last.value])
  }

  function WriteAll<T>(write: T -> Json, specs: seq<T>): Json {
    Arr(seq(|specs|, i requires 0 <= i < |specs| => write(specs[i])))
  }

  function LsisToJson(specs: seq<LsiSpec>): Json { WriteAll(LsiToJson, specs) }

  function LsisFromJson(json: Json): Option<seq<LsiSpec>> {
    if json.Arr? then ReadAll(LsiFromJson, json.items) else None
  }

  function GsisToJson(specs: seq<GsiSpec>): Json { WriteAll(GsiToJson, specs) }

  function GsisFromJson(json: Json): Option<seq<GsiSpec>> {
    if json.Arr? then ReadAll(GsiFromJson, json.items) else None
  }

  lemma {:induction false} StringsInvert(ss: seq<string>)
    ensures Strings(StrList(ss)) == ss
  {
    if ss != [] {
      assert StrList(ss)[..|ss| - 1] == StrList(ss[..|ss| - 1]);
      StringsInvert(ss[..|ss| - 1]);
    }
  }

  lemma LsiRoundTrip(l: LsiSpec)
    ensures LsiFromJson(LsiToJson(l)) == Some(l)
  {
    if l.nonKeyAttrs.Some? { StringsInvert(l.nonKeyAttrs.value); }
  }

  predicate ReadsPartition(o: map<Field, Json>, g: GsiSpec) {
    && ReadStr(o, FName) == Some(g.name) && ReadStr(o, FPartitionAttr) == Some(g.partitionAttr)
    && ReadKeyType(o, FPartitionType) == Some(g.partitionType) && ReadStr(o, FPartitionPgCol) == Some(g.partitionPgCol)
    && ReadStr(o, FIndexName) == Some(g.indexName)
  }

  predicate ReadsSort(o: map<Field, Json>, g: GsiSpec) {
    ReadStr(o, FSortAttr) == g.sortAttr && ReadSortType(o) == Some(g.sortType) && ReadStr(o, FSortPgCol) == g.sortPgCol
  }

  predicate ReadsRest(o: map<Field, Json>, g: GsiSpec) {
    && ReadStr(o, FProjectionType) == g.projectionType && ReadList(o, FNonKeyAttrs) == g.nonKeyAttrs
    && ReadMode(o) == Some(g.mode) && ReadBool(o, FServeable) == g.serveable && ReadStr(o, FReason) == g.reason
  }

  lemma GsiPartitionReads(g: GsiSpec)
    ensures ReadsPartition(GsiToJson(g).fields, g)
  {
  }

  lemma GsiSortReads(g: GsiSpec)
    ensures ReadsSort(GsiToJson(g).fields, g)
  {
  }

  lemma GsiRestReads(g: GsiSpec)
    ensures ReadsRest(GsiToJson(g).fields, g)
  {
    if g.nonKeyAttrs.Some? { StringsInvert(g.nonKeyAttrs.value); }
  }

  lemma GsiFromReads(o: map<Field, Json>, g: GsiSpec)
    requires ReadsPartition(o, g) && ReadsSort(o, g) && ReadsRest(o, g)
    ensures GsiFromJson(Obj(o)) == Some(g)
  {
  }

  lemma GsiRoundTrip(g: GsiSpec)
    ensures GsiFromJson(GsiToJson(g)) == Some(g)
  {
    GsiPartitionReads(g);
    GsiSortReads(g);
    GsiRestReads(g);
    GsiFromReads(GsiToJson(g).fields, g);
  }

  lemma ListRoundTrip<T>(read: Json -> Option<T>, write: T -> Json, specs: seq<T>)
    requires forall s :: s in specs ==> read(write(s)) == Some(s)
    ensures ReadAll(read, WriteAll(write, specs).items) == Some(specs)
  {
    var items := WriteAll(write, specs).items;
    assert forall i :: 0 <= i < |items| ==> read(items[i]) == Some(specs[i]);
    var r := ReadAll(read, items);
    assert r.Some? && r.value == specs;
  }

  /** Writing a spec list and reading it back is the identity, on every list. */
  lemma SpecListsRoundTrip(lsis: seq<LsiSpec>, gsis: seq<GsiSpec>)
    ensures LsisFromJson(LsisToJson(lsis)) == Some(lsis) && GsisFromJson(GsisToJson(gsis)) == Some(gsis)
  {
    forall l | l in lsis ensures LsiFromJson(LsiToJson(l)) == Some(l) { LsiRoundTrip(l); }
    ListRoundTrip(LsiFromJson, LsiToJson, lsis);
    forall g | g in gsis ensures GsiFromJson(GsiToJson(g)) == Some(g) { GsiRoundTrip(g); }
    ListRoundTrip(GsiFromJson, GsiToJson, gsis);
  }

  /** The reader's loop: it stops at the first malformed element. */
  method ReadSpecs<T>(read: Json -> Option<T>, json: Json) returns (r: Option<seq<T>>)
    ensures r == if json.Arr? then ReadAll(read, json.items) else None
  {
    if !json.Arr? { return None; }
    var out: seq<T> := [];
    for i := 0 to |json.items|
      invariant ReadAll(read, json.items[..i]) == Some(out)
    {
      assert json.items[..i + 1][..i] == json.items[..i];
      var v := read(json.items[i]);
      if v.None? { return None; }
      out := out + [v.value];
    }
    assert json.items[..|json.items|] == json.items;
    return Some(out);
  }
}
