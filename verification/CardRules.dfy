/** Which map cards the projection accepts, said of the fields of the card that was given. */
module CardRules {
  import opened Basics
  import opened Text
  import opened Sanitizer
  import opened MapCard

  // ----- Texts ----------------------------------------------------------------

  /** The field is a string that is not blank. */
  ghost predicate HasText(fields: Fields, key: string) {
    key in fields && fields[key].Str? && HasInk(fields[key].s)
  }

  /** The field is a string that trims to this text, which is not blank. */
  ghost predicate Reads(fields: Fields, key: string, text: string) {
    HasText(fields, key) && IsTrim(fields[key].s, text)
  }

  lemma NonEmptyReads(fields: Fields, key: string, text: string)
    ensures NonEmpty(fields, key) == Some(text) <==> Reads(fields, key, text)
    ensures NonEmpty(fields, key).Some? <==> HasText(fields, key)
  {
    if key in fields && fields[key].Str? {
      TrimIsEmptyIffBlank(fields[key].s);
      TrimIff(fields[key].s, text);
    }
  }

  /** Absent, null or a string that is not blank. */
  ghost predicate OptionalTextOk(fields: Fields, key: string) {
    key !in fields || fields[key] == Null || HasText(fields, key)
  }

  lemma OptionalTextIff(fields: Fields, key: string)
    ensures OptionalString(fields, key).Some? <==> OptionalTextOk(fields, key)
  {
    NonEmptyReads(fields, key, "");
  }

  ghost predicate TextsOk(card: Fields) {
    && HasText(card, "title") && HasText(card, "intent")
    && (Reads(card, "status", "loading") || Reads(card, "status", "ready") || Reads(card, "status", "error"))
    && OptionalTextOk(card, "fallback_text") && OptionalTextOk(card, "summary")
  }

  lemma StatusIff(card: Fields)
    ensures (NonEmpty(card, "status").Some? && NonEmpty(card, "status").value in {"loading", "ready", "error"}) <==>
              Reads(card, "status", "loading") || Reads(card, "status", "ready") || Reads(card, "status", "error")
  {
    NonEmptyReads(card, "status", "loading");
    NonEmptyReads(card, "status", "ready");
    NonEmptyReads(card, "status", "error");
  }

  lemma TextsIff(card: Fields)
    ensures ReadTexts(card).Some? <==> TextsOk(card)
  {
    NonEmptyReads(card, "title", "");
    NonEmptyReads(card, "intent", "");
    StatusIff(card);
    OptionalTextIff(card, "fallback_text");
    OptionalTextIff(card, "summary");
  }

  // ----- Numbers --------------------------------------------------------------

  /** A number, whole or not, between these bounds. */
  ghost predicate Within(value: Json, low: real, high: real) {
    && value.Num?
    && match value.number
       case Whole(n) => low <= n as real <= high
       case Float(x) => low <= x <= high
  }

  ghost predicate CenterOk(center: Json) {
    && center.Arr? && |center.items| == 2
    && Within(center.items[0], -180.0, 180.0) && Within(center.items[1], -90.0, 90.0)
  }

  /** Center and zoom come together; all numbers that are given are in range. */
  ghost predicate NumbersOk(card: Fields) {
    && ("center" in card <==> "zoom" in card)
    && ("center" in card ==> CenterOk(card["center"])) && ("zoom" in card ==> Within(card["zoom"], 0.0, 24.0))
    && ("bearing" in card ==> Within(card["bearing"], -180.0, 180.0))
    && ("pitch" in card ==> Within(card["pitch"], 0.0, 85.0))
  }

  lemma NumbersIff(card: Fields)
    ensures ReadNumbers(card).Some? <==> NumbersOk(card)
  {
  }

  // ----- Sources --------------------------------------------------------------

  ghost predicate IsIdentifier(s: string) {
    && 0 < |s| <= 128
    && forall i :: 0 <= i < |s| ==> ('0' <= s[i] <= '9' || 'A' <= s[i] <= 'Z' || 'a' <= s[i] <= 'z' || s[i] in "-_.")
  }

  ghost predicate NoControls(s: string) {
    forall i :: 0 <= i < |s| ==> !(s[i] <= '\U{1F}' || '\U{7F}' <= s[i] <= '\U{9F}')
  }

  ghost predicate KeysAmong(fields: Fields, keys: set<string>) { forall k :: k in fields ==> k in keys }

  /** A resource of a named server, which is not a tool prefix. */
  ghost predicate ResourceOk(data: Fields) {
    && KeysAmong(data, {"type", "server", "uri", "format"}) && Obj(data).Get("format") == Some(Str("geojson"))
    && (exists server :: Reads(data, "server", server) && IsIdentifier(server) && !("mcp__" <= server))
    && (exists id :: Reads(data, "uri", "maps-data://geojson/" + id) && IsIdentifier(id))
  }

  ghost predicate IsRoot(root: string) {
    root in {"FeatureCollection", "Feature", "GeometryCollection", "Point", "MultiPoint", "LineString",
             "MultiLineString", "Polygon", "MultiPolygon"}
  }

  ghost predicate InlineOk(data: Fields) {
    && KeysAmong(data, {"type", "format", "geojson"}) && Obj(data).Get("format") == Some(Str("geojson"))
    && "geojson" in data && data["geojson"].Obj?
    && exists root :: data["geojson"].Get("type") == Some(Str(root)) && IsRoot(root)
  }

  ghost predicate DataOk(data: Json) {
    || (data.Get("type") == Some(Str("mcp_resource")) && ResourceOk(data.fields))
    || (data.Get("type") == Some(Str("inline")) && InlineOk(data.fields))
  }

  lemma ServerIff(data: Fields)
    ensures (NonEmpty(data, "server").Some? && IsCardIdentifier(NonEmpty(data, "server").value)
             && !StartsWith(NonEmpty(data, "server").value, "mcp__")) <==>
              exists server :: Reads(data, "server", server) && IsIdentifier(server) && !("mcp__" <= server)
  {
    var found := NonEmpty(data, "server");
    if found.Some? { NonEmptyReads(data, "server", found.value); }
    forall server | Reads(data, "server", server) ensures found == Some(server) {
      NonEmptyReads(data, "server", server);
    }
  }

  lemma UriIff(data: Fields)
    ensures (NonEmpty(data, "uri").Some? && IsResourceUri(NonEmpty(data, "uri").value)) <==>
              exists id :: Reads(data, "uri", "maps-data://geojson/" + id) && IsIdentifier(id)
  {
    var found, prefix := NonEmpty(data, "uri"), "maps-data://geojson/";
    if found.Some? && IsResourceUri(found.value) {
      var id := found.value[|RESOURCE_PREFIX|..];
      NonEmptyReads(data, "uri", found.value);
      assert found.value == prefix + id && IsIdentifier(id);
    }
    forall id | Reads(data, "uri", prefix + id) && IsIdentifier(id) ensures found.Some? && IsResourceUri(found.value) {
      NonEmptyReads(data, "uri", prefix + id);
      assert (prefix + id)[|RESOURCE_PREFIX|..] == id;
    }
  }

  lemma ResourceIff(data: Fields)
    ensures ProjectResource(data).Some? <==> ResourceOk(data)
  {
    ServerIff(data);
    UriIff(data);
  }

  lemma RootIff(geojson: Json)
    ensures IsGeojsonRoot(geojson) <==>
              geojson.Obj? && exists root :: geojson.Get("type") == Some(Str(root)) && IsRoot(root)
  {
    var kind := geojson.Get("type");
    if kind.Some? && kind.value.Str? { assert kind == Some(Str(kind.value.s)); }
  }

  lemma InlineIff(data: Fields)
    ensures ProjectInline(data).Some? <==> InlineOk(data)
  {
    if "geojson" in data { RootIff(data["geojson"]); }
  }

  lemma DataIff(data: Json)
    ensures ProjectData(data).Some? <==> DataOk(data)
  {
    if data.Obj? {
      ResourceIff(data.fields);
      InlineIff(data.fields);
    }
  }

  /** A GeoJSON source whose options need no sanitising. */
  ghost predicate SourceOk(source: Json) {
    && source.Get("type") == Some(Str("geojson")) && Clean(Obj(source.fields - {"data"}), "source")
    && "data" in source.fields && DataOk(source.fields["data"])
  }

  lemma SourceIff(source: Json)
    ensures ProjectSource(source).Some? <==> SourceOk(source)
  {
    if source.GetStr("type") == Some("geojson") {
      CleanIffUnchanged(Obj(source.fields - {"data"}), "source");
      if "data" in source.fields { DataIff(source.fields["data"]); }
    }
  }

  ghost predicate SourcesOk(card: Fields) {
    && "sources" in card && card["sources"].Obj? && card["sources"].fields != map[]
    && SourceEntriesOk(card["sources"].fields)
  }

  lemma SourceIdIff(id: string)
    ensures IsMapboxIdentifier(id) <==> HasInk(id) && NoControls(id)
  {
    TrimIsEmptyIffBlank(id);
  }

  lemma AllOrNothing(fields: Fields, project: Json -> Option<Json>)
    ensures ProjectAll(fields, project).Some? <==> forall k :: k in fields ==> project(fields[k]).Some?
    ensures ProjectAll(fields, project).Some? ==> ProjectAll(fields, project).value.Keys == fields.Keys
  {
  }

  ghost predicate SourceEntriesOk(sources: Fields) {
    forall id :: id in sources ==> HasInk(id) && NoControls(id) && SourceOk(sources[id])
  }

  lemma SourceEntriesIff(sources: Fields)
    ensures ProjectSources(Obj(sources)).Some? <==> sources != map[] && SourceEntriesOk(sources)
    ensures ProjectSources(Obj(sources)).Some? ==> ProjectSources(Obj(sources)).value.Keys == sources.Keys
  {
    AllOrNothing(sources, ProjectSource);
    assert sources.Keys == {} <==> sources == map[];
    forall id | id in sources
      ensures IsMapboxIdentifier(id) <==> HasInk(id) && NoControls(id)
      ensures ProjectSource(sources[id]).Some? <==> SourceOk(sources[id])
    {
      SourceIdIff(id);
      SourceIff(sources[id]);
    }
  }

  lemma SourcesIff(card: Fields)
    ensures ReadSources(card).Some? <==> SourcesOk(card)
    ensures ReadSources(card).Some? ==> ReadSources(card).value.Keys == card["sources"].fields.Keys
  {
    if "sources" in card && card["sources"].Obj? { SourceEntriesIff(card["sources"].fields); }
  }

  // ----- Layers ---------------------------------------------------------------

  ghost predicate LayerOk(layer: Json, sources: set<string>) {
    && layer.Obj? && Clean(layer, "layer")
    && (exists id :: Reads(layer.fields, "id", id) && NoControls(id)) && HasText(layer.fields, "type")
    && ("source" in layer.fields ==> layer.fields["source"].Str? && layer.fields["source"].s in sources)
  }

  ghost predicate Named(layer: Json, id: string) { layer.Obj? && Reads(layer.fields, "id", id) }

  /** Each layer is fine, and no two have the same identifier. */
  ghost predicate LayersOk(layers: seq<Json>, n: nat, sources: set<string>)
    requires n <= |layers|
  {
    && (forall i :: 0 <= i < n ==> LayerOk(layers[i], sources))
    && forall i, j, id :: 0 <= i < j < n && Named(layers[i], id) ==> !Named(layers[j], id)
  }

  ghost predicate IsNamed(layers: seq<Json>, n: nat, id: string)
    requires n <= |layers|
  {
    exists i :: 0 <= i < n && Named(layers[i], id)
  }

  /** A layer with this identifier draws from a source. */
  ghost predicate Draws(layers: seq<Json>, n: nat, id: string)
    requires n <= |layers|
  {
    exists i :: 0 <= i < n && Named(layers[i], id) && "source" in layers[i].fields
  }

  /** The scan knows exactly the identifiers so far and those that draw from a source. */
  ghost predicate Knows(layers: seq<Json>, n: nat, scan: Scan)
    requires n <= |layers|
  {
    forall id :: (id in scan.ids <==> IsNamed(layers, n, id)) && (id in scan.backed <==> Draws(layers, n, id))
  }

  lemma NameIsUnique(layer: Json, id: string)
    requires layer.Obj? && NonEmpty(layer.fields, "id") == Some(id)
    ensures forall other :: Named(layer, other) <==> other == id
  {
    forall other ensures Named(layer, other) <==> other == id { NonEmptyReads(layer.fields, "id", other); }
  }

  lemma IdIff(layer: Json)
    requires layer.Obj?
    ensures (NonEmpty(layer.fields, "id").Some? && IsMapboxIdentifier(NonEmpty(layer.fields, "id").value)) <==>
              exists id :: Reads(layer.fields, "id", id) && NoControls(id)
  {
    var found := NonEmpty(layer.fields, "id");
    if found.Some? {
      NonEmptyReads(layer.fields, "id", found.value);
      TrimIsTrimmed(layer.fields["id"].s);
      TrimIsTrimmed(found.value);
    }
    forall id | Reads(layer.fields, "id", id) ensures found == Some(id) { NonEmptyReads(layer.fields, "id", id); }
  }

  lemma LayerIff(scan: Scan, layer: Json, sources: set<string>)
    ensures ScanLayer(scan, layer, sources).Some? <==>
              LayerOk(layer, sources) && NonEmpty(layer.fields, "id").Some?
              && NonEmpty(layer.fields, "id").value !in scan.ids
  {
    CleanIffUnchanged(layer, "layer");
    if layer.Obj? {
      IdIff(layer);
      NonEmptyReads(layer.fields, "type", "");
    }
  }

  lemma KnowsOneMore(layers: seq<Json>, n: nat, scan: Scan, sources: set<string>)
    requires n < |layers| && Knows(layers, n, scan) && ScanLayer(scan, layers[n], sources).Some?
    ensures Knows(layers, n + 1, ScanLayer(scan, layers[n], sources).value)
  {
    var id := NonEmpty(layers[n].fields, "id").value;
    NameIsUnique(layers[n], id);
    var next := ScanLayer(scan, layers[n], sources).value;
    forall other
      ensures other in next.ids <==> IsNamed(layers, n + 1, other)
      ensures other in next.backed <==> Draws(layers, n + 1, other)
    {
      assert IsNamed(layers, n + 1, other) <==> IsNamed(layers, n, other) || Named(layers[n], other);
      assert Draws(layers, n + 1, other) <==>
             Draws(layers, n, other) || (Named(layers[n], other) && "source" in layers[n].fields);
    }
  }

  /** No earlier layer has this layer's identifier. */
  ghost predicate IsNew(layers: seq<Json>, n: nat)
    requires n < |layers|
  {
    forall id :: Named(layers[n], id) ==> !IsNamed(layers, n, id)
  }

  lemma LayersOkStep(layers: seq<Json>, n: nat, sources: set<string>)
    requires n < |layers|
    ensures LayersOk(layers, n + 1, sources) <==>
              LayersOk(layers, n, sources) && LayerOk(layers[n], sources) && IsNew(layers, n)
  {
    if LayersOk(layers, n + 1, sources) {
      forall id | Named(layers[n], id) ensures !IsNamed(layers, n, id) {}
    }
  }

  lemma NewIffUnknown(layers: seq<Json>, n: nat, scan: Scan)
    requires n < |layers| && Knows(layers, n, scan)
    requires layers[n].Obj? && NonEmpty(layers[n].fields, "id").Some?
    ensures IsNew(layers, n) <==> NonEmpty(layers[n].fields, "id").value !in scan.ids
  {
    NameIsUnique(layers[n], NonEmpty(layers[n].fields, "id").value);
  }

  lemma LayersOneMore(layers: seq<Json>, n: nat, scan: Scan, sources: set<string>)
    requires n < |layers| && Knows(layers, n, scan) && LayersOk(layers, n, sources)
    ensures LayersOk(layers, n + 1, sources) <==> ScanLayer(scan, layers[n], sources).Some?
  {
    LayersOkStep(layers, n, sources);
    LayerIff(scan, layers[n], sources);
    if LayerOk(layers[n], sources) {
      IdIff(layers[n]);
      NewIffUnknown(layers, n, scan);
    }
  }

  /** The scan went through exactly if the layers so far are fine, and it knows them. */
  ghost predicate Agrees(layers: seq<Json>, n: nat, sources: set<string>, scan: Option<Scan>)
    requires n <= |layers|
  {
    (scan.Some? <==> LayersOk(layers, n, sources)) && (scan.Some? ==> Knows(layers, n, scan.value))
  }

  lemma AgreesOneMore(layers: seq<Json>, n: nat, sources: set<string>, scan: Scan)
    requires n < |layers| && Agrees(layers, n, sources, Some(scan))
    ensures Agrees(layers, n + 1, sources, ScanLayer(scan, layers[n], sources))
  {
    LayersOneMore(layers, n, scan, sources);
    if ScanLayer(scan, layers[n], sources).Some? { KnowsOneMore(layers, n, scan, sources); }
  }

  lemma RefusedStaysRefused(layers: seq<Json>, n: nat, sources: set<string>)
    requires n < |layers| && Agrees(layers, n, sources, None)
    ensures Agrees(layers, n + 1, sources, None)
  {
    if LayersOk(layers, n + 1, sources) { assert LayersOk(layers, n, sources); }
  }

  /** What holds of no layers and is kept by every layer, scanned or after a refusal, holds of the scan. */
  lemma {:induction false} ScanAgrees(layers: seq<Json>, n: nat, scanner: (Scan, Json) -> Option<Scan>,
                                      holds: (nat, Option<Scan>) -> bool)
    requires n <= |layers| && holds(0, Some(Scan({}, {})))
    requires forall k: nat, scan {:trigger holds(k, Some(scan))} :: k < |layers| && holds(k, Some(scan)) ==>
               holds(k + 1, scanner(scan, layers[k]))
    requires forall k: nat {:trigger holds(k, None)} :: k < |layers| && holds(k, None) ==> holds(k + 1, None)
    ensures holds(n, ScanWith(layers, n, scanner))
  {
    if n == 0 {
    } else {
      ScanAgrees(layers, n - 1, scanner, holds);
      var before := ScanWith(layers, n - 1, scanner);
      if before.Some? { assert holds(n - 1, Some(before.value)); } else { assert holds(n - 1, None); }
    }
  }

  ghost predicate AgreesUpTo(layers: seq<Json>, n: nat, sources: set<string>, scan: Option<Scan>) {
    n <= |layers| && Agrees(layers, n, sources, scan)
  }

  lemma AgreesAtStart(layers: seq<Json>, sources: set<string>)
    ensures AgreesUpTo(layers, 0, sources, Some(Scan({}, {})))
  {
  }

  lemma AgreesNext(layers: seq<Json>, n: nat, sources: set<string>, scan: Option<Scan>)
    requires n < |layers| && AgreesUpTo(layers, n, sources, scan)
    ensures scan.Some? ==> AgreesUpTo(layers, n + 1, sources, ScanLayer(scan.value, layers[n], sources))
    ensures scan.None? ==> AgreesUpTo(layers, n + 1, sources, None)
  {
    if scan.Some? { AgreesOneMore(layers, n, sources, scan.value); } else { RefusedStaysRefused(layers, n, sources); }
  }

  lemma LayersIff(layers: seq<Json>, sources: set<string>)
    ensures AgreesUpTo(layers, |layers|, sources, ScanLayers(layers, sources))
  {
    var holds := (n: nat, scan) => AgreesUpTo(layers, n, sources, scan);
    AgreesAtStart(layers, sources);
    forall k: nat, scan | k < |layers| && holds(k, Some(scan))
      ensures holds(k + 1, ScanLayer(scan, layers[k], sources))
    {
      AgreesNext(layers, k, sources, Some(scan));
    }
    forall k: nat | k < |layers| && holds(k, None) ensures holds(k + 1, None) { AgreesNext(layers, k, sources, None); }
    ScanAgrees(layers, |layers|, Scanner(sources), holds);
  }

  // ----- Extensions -----------------------------------------------------------

  ghost predicate FieldOk(field: Json) {
    match field
    case Str(s) => HasInk(s)
    case Obj(fields) =>
      && KeysAmong(fields, {"property", "label"}) && HasText(fields, "property")
      && ("label" in fields ==> HasText(fields, "label"))
    case _ => false
  }

  /** The entry names a layer that draws from a source, and lists fields. */
  ghost predicate HoverEntryOk(entry: Json, layers: seq<Json>) {
    && entry.Obj? && KeysAmong(entry.fields, {"layer", "title_property", "fields"})
    && (exists id :: Reads(entry.fields, "layer", id) && Draws(layers, |layers|, id))
    && ("title_property" in entry.fields ==> HasText(entry.fields, "title_property"))
    && "fields" in entry.fields && entry.fields["fields"].Arr?
    && forall i :: 0 <= i < |entry.fields["fields"].items| ==> FieldOk(entry.fields["fields"].items[i])
  }

  ghost predicate LegendEntryOk(entry: Json) {
    && entry.Obj? && KeysAmong(entry.fields, {"label", "color", "type"})
    && HasText(entry.fields, "label") && HasText(entry.fields, "color")
    && ("type" in entry.fields ==>
          || entry.fields["type"] == Str("circle") || entry.fields["type"] == Str("line")
          || entry.fields["type"] == Str("fill"))
  }

  ghost predicate HoverIsOk(hover: Json, layers: seq<Json>) {
    && hover.Obj? && "layers" in hover.fields && hover.fields["layers"].Arr?
    && forall i :: 0 <= i < |hover.fields["layers"].items| ==> HoverEntryOk(hover.fields["layers"].items[i], layers)
  }

  ghost predicate LegendIsOk(legend: Json) {
    && legend.Obj? && "items" in legend.fields && legend.fields["items"].Arr? && legend.fields["items"].items != []
    && forall i :: 0 <= i < |legend.fields["items"].items| ==> LegendEntryOk(legend.fields["items"].items[i])
  }

  ghost predicate ExtensionsAreOk(value: Json, layers: seq<Json>) {
    && value.Obj? && KeysAmong(value.fields, {"hover", "legend"})
    && ("hover" in value.fields ==> HoverIsOk(value.fields["hover"], layers))
    && ("legend" in value.fields ==> LegendIsOk(value.fields["legend"]))
  }

  lemma FieldIff(field: Json)
    ensures HoverFieldOk(field) <==> FieldOk(field)
  {
    match field
    case Str(s) => TrimIsEmptyIffBlank(s);
    case Obj(fields) =>
      NonEmptyReads(fields, "property", "");
      NonEmptyReads(fields, "label", "");
    case _ =>
  }

  /** Whatever draws from a source is named. */
  lemma BackedIff(fields: Fields, layers: seq<Json>, scan: Scan)
    requires Knows(layers, |layers|, scan)
    ensures (NonEmpty(fields, "layer").Some? && NonEmpty(fields, "layer").value in scan.ids
             && NonEmpty(fields, "layer").value in scan.backed) <==>
              exists id :: Reads(fields, "layer", id) && Draws(layers, |layers|, id)
  {
    var found := NonEmpty(fields, "layer");
    if found.Some? {
      NonEmptyReads(fields, "layer", found.value);
      assert Draws(layers, |layers|, found.value) ==> IsNamed(layers, |layers|, found.value);
    }
    forall id | Reads(fields, "layer", id) ensures found == Some(id) { NonEmptyReads(fields, "layer", id); }
  }

  lemma HoverEntryIff(entry: Json, layers: seq<Json>, scan: Scan)
    requires Knows(layers, |layers|, scan)
    ensures HoverLayerOk(entry, scan) <==> HoverEntryOk(entry, layers)
  {
    if entry.Obj? {
      BackedIff(entry.fields, layers, scan);
      NonEmptyReads(entry.fields, "title_property", "");
      if "fields" in entry.fields && entry.fields["fields"].Arr? {
        var items := entry.fields["fields"].items;
        forall i | 0 <= i < |items| ensures HoverFieldOk(items[i]) <==> FieldOk(items[i]) { FieldIff(items[i]); }
      }
    }
  }

  lemma LegendEntryIff(entry: Json)
    ensures LegendItemOk(entry) <==> LegendEntryOk(entry)
  {
    if entry.Obj? {
      NonEmptyReads(entry.fields, "label", "");
      NonEmptyReads(entry.fields, "color", "");
    }
  }

  lemma HoverIff(hover: Json, layers: seq<Json>, scan: Scan)
    requires Knows(layers, |layers|, scan)
    ensures HoverOk(hover, scan) <==> HoverIsOk(hover, layers)
  {
    if hover.Obj? && "layers" in hover.fields && hover.fields["layers"].Arr? {
      var items := hover.fields["layers"].items;
      forall i | 0 <= i < |items| ensures HoverLayerOk(items[i], scan) <==> HoverEntryOk(items[i], layers) {
        HoverEntryIff(items[i], layers, scan);
      }
    }
  }

  lemma LegendIff(legend: Json)
    ensures LegendOk(legend) <==> LegendIsOk(legend)
  {
    if legend.Obj? && "items" in legend.fields && legend.fields["items"].Arr? {
      var items := legend.fields["items"].items;
      forall i | 0 <= i < |items| ensures LegendItemOk(items[i]) <==> LegendEntryOk(items[i]) {
        LegendEntryIff(items[i]);
      }
    }
  }

  lemma ExtensionsIff(value: Json, layers: seq<Json>, scan: Scan)
    requires Knows(layers, |layers|, scan)
    ensures ExtensionsOk(value, scan) <==> ExtensionsAreOk(value, layers)
  {
    if value.Obj? {
      if "hover" in value.fields { HoverIff(value.fields["hover"], layers, scan); }
      if "legend" in value.fields { LegendIff(value.fields["legend"]); }
    }
  }

  // ----- The card -------------------------------------------------------------

  ghost predicate LayoutOk(card: Fields) {
    SourcesOk(card) && LayersPartOk(card, card["sources"].fields.Keys)
  }

  ghost predicate LayersPartOk(card: Fields, sources: set<string>) {
    && "layers" in card && card["layers"].Arr? && card["layers"].items != []
    && LayersOk(card["layers"].items, |card["layers"].items|, sources)
    && ("extensions" in card ==> ExtensionsAreOk(card["extensions"], card["layers"].items))
  }

  lemma LayersPartIff(card: Fields, sources: Fields)
    ensures ReadLayers(card, sources).Some? <==> LayersPartOk(card, sources.Keys)
  {
    if "layers" in card && card["layers"].Arr? {
      var layers := card["layers"].items;
      LayersIff(layers, sources.Keys);
      var scan := ScanLayers(layers, sources.Keys);
      if scan.Some? && "extensions" in card { ExtensionsIff(card["extensions"], layers, scan.value); }
    }
  }

  lemma LayoutIff(card: Fields)
    ensures ReadLayout(card).Some? <==> LayoutOk(card)
  {
    SourcesIff(card);
    if ReadSources(card).Some? { LayersPartIff(card, ReadSources(card).value); }
  }

  ghost predicate Acceptable(card: Fields) {
    && KeysAmong(card, {"title", "intent", "status", "fallback_text", "summary", "sources", "layers", "center", "zoom",
                        "bearing", "pitch", "extensions"})
    && TextsOk(card) && LayoutOk(card) && NumbersOk(card)
  }

  /** The projection accepts exactly the cards that meet these conditions. */
  lemma AcceptedIff(card: Fields)
    ensures ProjectCard(card).Some? <==> Acceptable(card)
  {
    TextsIff(card);
    LayoutIff(card);
    NumbersIff(card);
    assert card.Keys <= CARD_FIELDS <==> KeysAmong(card, CARD_FIELDS);
  }
}
