/** `init_schema` (which storage layout the destination gets, and what is
    written to an empty destination before copying) and the steps after the
    copy (metadata overrides, then the aggregate hash). The sink calls are
    recorded as actions; their database work is not modelled. */
module Schema {
  import opened Wrappers

  /** The `--mbtiles-type` choices. */
  datatype MbtTypeCli = FlatCli | FlatWithHashCli | NormalizedCli

  /** The storage layouts of an mbtiles file. */
  datatype MbtType = Flat | FlatWithHash | Normalized(hashView: bool)

  /** What `init_schema` asks of an empty destination. */
  datatype SchemaAction =
    | InitMbtilesSchema(mbtType: MbtType)
    | InsertMetadata(other: map<string, string>)

  /** The layout every later insert uses, and the calls made to set it up. */
  datatype SchemaChoice = SchemaChoice(mbtType: MbtType, actions: seq<SchemaAction>)

  /** What happens after the copy. */
  datatype PostAction = SetMetadataValue(key: string, value: string) | UpdateAggTilesHash

  /** The layout a command-line choice creates. */
  function LayoutOf(cli: MbtTypeCli): MbtType {
    match cli
    case FlatCli => Flat
    case FlatWithHashCli => FlatWithHash
    case NormalizedCli => Normalized(true)
  }

  /** The choice that creates a layout, if one does. */
  function ChoiceFor(t: MbtType): Option<MbtTypeCli> {
    match t
    case Flat => Some(FlatCli)
    case FlatWithHash => Some(FlatWithHashCli)
    case Normalized(hashView) => if hashView then Some(NormalizedCli) else None
  }

  /** Each choice creates a different layout, and the normalized layout without
      the hash view is never created. */
  lemma LayoutOfRoundTrip(cli: MbtTypeCli)
    ensures ChoiceFor(LayoutOf(cli)) == Some(cli)
    ensures LayoutOf(cli) != Normalized(false)
  {
  }

  /** The metadata stored in an empty destination: the merged tilejson fields of
      the sources, with `format` and `generator` set. */
  function SeedMetadata(merged: map<string, string>, format: string, version: string): (m: map<string, string>)
    ensures m.Keys == merged.Keys + {"format", "generator"}
    ensures m["format"] == format
    ensures m["generator"] == "martin-cp v" + version
    ensures forall k :: k in merged && k != "format" && k != "generator" ==> m[k] == merged[k]
  {
    merged["format" := format]["generator" := "martin-cp v" + version]
  }

  /** `init_schema`. An empty destination gets the requested layout (normalized
      with the hash view when none is requested), its schema is created and the
      metadata is stored; a destination that already has data keeps the layout
      detected in it and nothing is written. */
  function InitSchema(isEmpty: bool, detected: MbtType, requested: Option<MbtTypeCli>,
                      merged: map<string, string>, format: string, version: string): (r: SchemaChoice)
    ensures isEmpty ==>
              && (requested.Some? ==> ChoiceFor(r.mbtType) == requested)
              && (requested.None? ==> r.mbtType == Normalized(true))
              && r.actions == [InitMbtilesSchema(r.mbtType), InsertMetadata(SeedMetadata(merged, format, version))]
    ensures !isEmpty ==> r.mbtType == detected && r.actions == []
  {
    if isEmpty then
      var t := LayoutOf(requested.GetOr(NormalizedCli));
      LayoutOfRoundTrip(requested.GetOr(NormalizedCli));
      SchemaChoice(t, [InitMbtilesSchema(t), InsertMetadata(SeedMetadata(merged, format, version))])
    else
      SchemaChoice(detected, [])
  }

  /** On a destination that already has data, the requested layout changes nothing. */
  lemma RequestIgnoredWhenNotEmpty(detected: MbtType, a: Option<MbtTypeCli>, b: Option<MbtTypeCli>,
                                   merged: map<string, string>, format: string, version: string)
    ensures InitSchema(false, detected, a, merged, format, version)
         == InitSchema(false, detected, b, merged, format, version)
  {
  }

  /** The `--set-meta` pairs as metadata writes, in order. */
  function SetMetaActions(pairs: seq<(string, string)>): (r: seq<PostAction>)
    ensures |r| == |pairs|
    ensures forall i :: 0 <= i < |pairs| ==> r[i] == SetMetadataValue(pairs[i].0, pairs[i].1)
  {
    if pairs == [] then [] else [SetMetadataValue(pairs[0].0, pairs[0].1)] + SetMetaActions(pairs[1..])
  }

  /** The number of aggregate-hash updates among `acts`. */
  function HashUpdates(acts: seq<PostAction>): nat {
    if acts == [] then 0 else (if acts[0] == UpdateAggTilesHash then 1 else 0) + HashUpdates(acts[1..])
  }

  lemma {:induction false} HashUpdatesAppend(a: seq<PostAction>, b: seq<PostAction>)
    ensures HashUpdates(a + b) == HashUpdates(a) + HashUpdates(b)
  {
    if a == [] {
      assert a + b == b;
    } else {
      assert (a + b)[1..] == a[1..] + b;
      HashUpdatesAppend(a[1..], b);
    }
  }

  lemma {:induction false} NoHashUpdateInSetMeta(pairs: seq<(string, string)>)
    ensures HashUpdates(SetMetaActions(pairs)) == 0
  {
    if pairs != [] {
      NoHashUpdateInSetMeta(pairs[1..]);
    }
  }

  /** Whether the aggregate hash is recomputed: not skipped, and at least one
      tile was written. */
  predicate ShouldUpdateHash(skipAggTilesHash: bool, nonEmpty: nat) {
    !skipAggTilesHash && nonEmpty > 0
  }

  /** After the copy: every metadata override is written in the given order,
      then the aggregate hash is updated exactly once when it is not skipped and
      some tile was written, and never otherwise. */
  function PostCopy(pairs: seq<(string, string)>, skipAggTilesHash: bool, nonEmpty: nat): (r: seq<PostAction>)
    ensures |r| == |pairs| + (if ShouldUpdateHash(skipAggTilesHash, nonEmpty) then 1 else 0)
    ensures forall i :: 0 <= i < |pairs| ==> r[i] == SetMetadataValue(pairs[i].0, pairs[i].1)
    ensures HashUpdates(r) == (if ShouldUpdateHash(skipAggTilesHash, nonEmpty) then 1 else 0)
  {
    var sets := SetMetaActions(pairs);
    var hash := if ShouldUpdateHash(skipAggTilesHash, nonEmpty) then [UpdateAggTilesHash] else [];
    NoHashUpdateInSetMeta(pairs);
    HashUpdatesAppend(sets, hash);
    assert HashUpdates([UpdateAggTilesHash]) == 1;
    sets + hash
  }
}
