/** The projection that admits a map card: it validates, normalises and copies. */
module MapCard {
  import opened Basics
  import opened Text
  import opened Sanitizer

  type Fields = map<string, Json>

  // ----- Field readers --------------------------------------------------------

  function NonEmpty(fields: Fields, key: string): Option<string> {
    if key in fields && fields[key].Str? && Trim(fields[key].s) != "" then Some(Trim(fields[key].s)) else None
  }

  /** Absent and null are fine, a blank or non-string value is not. */
  function OptionalString(fields: Fields, key: string): Option<Option<string>> {
    if key !in fields || fields[key] == Null then Some(None)
    else
      var text :- NonEmpty(fields, key);
      Some(Some(text))
  }

  function Bounded(value: Json, low: real, high: real): Option<real> {
    if !value.Num? then None
    else
      var x := match value.number case Whole(n) => n as real case Float(x) => x;
      if low <= x <= high then Some(x) else None
  }

  function OptionalBounded(fields: Fields, key: string, low: real, high: real): Option<Option<real>> {
    if key !in fields then Some(None)
    else
      var x :- Bounded(fields[key], low, high);
      Some(Some(x))
  }

  // ----- Sources --------------------------------------------------------------

  const GEOJSON_ROOTS: set<string> :=
    {"FeatureCollection", "Feature", "GeometryCollection", "Point", "MultiPoint", "LineString", "MultiLineString",
     "Polygon", "MultiPolygon"}

  predicate IsGeojsonRoot(value: Json) {
    value.GetStr("type").Some? && value.GetStr("type").value in GEOJSON_ROOTS
  }

  const RESOURCE_PREFIX := "maps-data://geojson/"

  predicate IsResourceUri(uri: string) {
    StartsWith(uri, RESOURCE_PREFIX) && IsCardIdentifier(uri[|RESOURCE_PREFIX|..])
  }

  function ResourceData(server: string, uri: string): Json {
    Obj(map["type" := Str("mcp_resource"), "server" := Str(server), "uri" := Str(uri), "format" := Str("geojson")])
  }

  function InlineData(geojson: Json): Json {
    Obj(map["type" := Str("inline"), "format" := Str("geojson"), "geojson" := geojson])
  }

  function ProjectResource(data: Fields): Option<Json> {
    if !(data.Keys <= {"type", "server", "uri", "format"}) || Obj(data).GetStr("format") != Some("geojson") then None
    else
      var server :- NonEmpty(data, "server");
      var uri :- NonEmpty(data, "uri");
      if !IsCardIdentifier(server) || StartsWith(server, "mcp__") || !IsResourceUri(uri) then None
      else Some(ResourceData(server, uri))
  }

  function ProjectInline(data: Fields): Option<Json> {
    if !(data.Keys <= {"type", "format", "geojson"}) || Obj(data).GetStr("format") != Some("geojson") then None
    else
      var geojson :- Obj(data).Get("geojson");
      if IsGeojsonRoot(geojson) then Some(InlineData(Sanitize(geojson, "geojson"))) else None
  }

  function ProjectData(data: Json): Option<Json> {
    var kind :- data.GetStr("type");
    if kind == "mcp_resource" then ProjectResource(data.fields)
    else if kind == "inline" then ProjectInline(data.fields)
    else None
  }

  function ProjectSource(source: Json): Option<Json> {
    if source.GetStr("type") != Some("geojson") then None
    else
      var options := Obj(source.fields - {"data"});
      if Sanitize(options, "source") != options then None
      else
        var data :- source.Get("data");
        var projected :- ProjectData(data);
        Some(Obj(source.fields["data" := projected]))
  }

  /** Applies a partial projection to every value, all or nothing. */
  function ProjectAll(fields: Fields, project: Json -> Option<Json>): Option<Fields> {
    if forall k :: k in fields ==> project(fields[k]).Some?
    then Some(map k | k in fields :: project(fields[k]).value)
    else None
  }

  predicate SourceIdsOk(fields: Fields) {
    fields.Keys != {} && forall id :: id in fields ==> IsMapboxIdentifier(id)
  }

  function ProjectSources(value: Json): Option<Fields> {
    if value.Obj? && SourceIdsOk(value.fields) then ProjectAll(value.fields, ProjectSource) else None
  }

  // ----- Layers ---------------------------------------------------------------

  /** The layer ids seen so far and those among them that draw from a source. */
  datatype Scan = Scan(ids: set<string>, backed: set<string>)

  function ScanLayer(scan: Scan, layer: Json, sources: set<string>): Option<Scan> {
    if !layer.Obj? || Sanitize(layer, "layer") != layer then None
    else
      var id :- NonEmpty(layer.fields, "id");
      if !IsMapboxIdentifier(id) || id in scan.ids || NonEmpty(layer.fields, "type").None? then None
      else if "source" !in layer.fields then Some(Scan(scan.ids + {id}, scan.backed))
      else
        var source :- layer.fields["source"].AsStr();
        if source in sources then Some(Scan(scan.ids + {id}, scan.backed + {id})) else None
  }

  function ScanWith(layers: seq<Json>, n: nat, scanner: (Scan, Json) -> Option<Scan>): Option<Scan>
    requires n <= |layers|
  {
    if n == 0 then Some(Scan({}, {}))
    else
      var scan :- ScanWith(layers, n - 1, scanner);
      scanner(scan, layers[n - 1])
  }

  function Scanner(sources: set<string>): (Scan, Json) -> Option<Scan> {
    (scan, layer) => ScanLayer(scan, layer, sources)
  }

  function ScanLayers(layers: seq<Json>, sources: set<string>): Option<Scan> {
    ScanWith(layers, |layers|, Scanner(sources))
  }

  // ----- Extensions -----------------------------------------------------------

  predicate HoverFieldOk(field: Json) {
    match field
    case Str(s) => Trim(s) != ""
    case Obj(fields) =>
      && fields.Keys <= {"property", "label"} && NonEmpty(fields, "property").Some?
      && ("label" in fields ==> NonEmpty(fields, "label").Some?)
    case _ => false
  }

  predicate HoverLayerOk(layer: Json, scan: Scan) {
    && layer.Obj? && layer.fields.Keys <= {"layer", "title_property", "fields"}
    && var id := NonEmpty(layer.fields, "layer");
    && id.Some? && id.value in scan.ids && id.value in scan.backed
    && ("title_property" in layer.fields ==> NonEmpty(layer.fields, "title_property").Some?)
    && "fields" in layer.fields && layer.fields["fields"].Arr?
    && var fields := layer.fields["fields"].items;
    forall i :: 0 <= i < |fields| ==> HoverFieldOk(fields[i])
  }

  predicate HoverOk(hover: Json, scan: Scan) {
    && var layers := hover.Get("layers");
    && layers.Some? && layers.value.Arr?
    && forall i :: 0 <= i < |layers.value.items| ==> HoverLayerOk(layers.value.items[i], scan)
  }

  predicate LegendItemOk(item: Json) {
    && item.Obj? && item.fields.Keys <= {"label", "color", "type"}
    && NonEmpty(item.fields, "label").Some? && NonEmpty(item.fields, "color").Some?
    && ("type" in item.fields ==> item.fields["type"] in {Str("circle"), Str("line"), Str("fill")})
  }

  predicate LegendOk(legend: Json) {
    && var items := legend.Get("items");
    && items.Some? && items.value.Arr? && items.value.items != []
    && forall i :: 0 <= i < |items.value.items| ==> LegendItemOk(items.value.items[i])
  }

  predicate ExtensionsOk(value: Json, scan: Scan) {
    && value.Obj? && value.fields.Keys <= {"hover", "legend"}
    && ("hover" in value.fields ==> HoverOk(value.fields["hover"], scan))
    && ("legend" in value.fields ==> LegendOk(value.fields["legend"]))
  }

  // ----- The card -------------------------------------------------------------

  const CARD_FIELDS: set<string> :=
    {"title", "intent", "status", "fallback_text", "summary", "sources", "layers", "center", "zoom", "bearing", "pitch",
     "extensions"}

  datatype View = View(longitude: real, latitude: real, zoom: real)

  datatype Texts = Texts(title: string, intent: string, status: string, fallback: Option<string>,
                         summary: Option<string>)

  datatype Numbers = Numbers(view: Option<View>, bearing: Option<real>, pitch: Option<real>)

  datatype Layout = Layout(sources: Fields, layers: seq<Json>, extensions: Option<Json>)

  /** An accepted card, part by part. */
  datatype Card = Card(texts: Texts, layout: Layout, numbers: Numbers)

  function FloatJson(x: real): Json { Num(Float(x)) }

  function CenterJson(view: View): Json { Arr([FloatJson(view.longitude), FloatJson(view.latitude)]) }

  function FieldOf(c: Card, key: string): Option<Json> {
    match key
    case "title" => Some(Str(c.texts.title))
    case "intent" => Some(Str(c.texts.intent))
    case "status" => Some(Str(c.texts.status))
    case "fallback_text" => if c.texts.fallback.Some? then Some(Str(c.texts.fallback.value)) else None
    case "summary" => if c.texts.summary.Some? then Some(Str(c.texts.summary.value)) else None
    case "sources" => Some(Obj(c.layout.sources))
    case "layers" => Some(Arr(c.layout.layers))
    case "center" => if c.numbers.view.Some? then Some(CenterJson(c.numbers.view.value)) else None
    case "zoom" => if c.numbers.view.Some? then Some(FloatJson(c.numbers.view.value.zoom)) else None
    case "bearing" => if c.numbers.bearing.Some? then Some(FloatJson(c.numbers.bearing.value)) else None
    case "pitch" => if c.numbers.pitch.Some? then Some(FloatJson(c.numbers.pitch.value)) else None
    case "extensions" => c.layout.extensions
    case _ => None
  }

  function Render(c: Card): (fields: Fields)
    ensures forall k :: k in CARD_FIELDS ==> Obj(fields).Get(k) == FieldOf(c, k)
    ensures fields.Keys <= CARD_FIELDS
  {
    map k | k in CARD_FIELDS && FieldOf(c, k).Some? :: FieldOf(c, k).value
  }

  function ReadView(card: Fields): Option<Option<View>> {
    if "center" !in card && "zoom" !in card then Some(None)
    else if "center" !in card || "zoom" !in card then None
    else
      var center := card["center"];
      if !center.Arr? || |center.items| != 2 then None
      else
        var longitude :- Bounded(center.items[0], -180.0, 180.0);
        var latitude :- Bounded(center.items[1], -90.0, 90.0);
        var zoom :- Bounded(card["zoom"], 0.0, 24.0);
        Some(Some(View(longitude, latitude, zoom)))
  }

  function ReadExtensions(card: Fields, scan: Scan): Option<Option<Json>> {
    if "extensions" !in card then Some(None)
    else if ExtensionsOk(card["extensions"], scan) then Some(Some(card["extensions"]))
    else None
  }

  function ReadTexts(card: Fields): Option<Texts> {
    var title :- NonEmpty(card, "title");
    var intent :- NonEmpty(card, "intent");
    var status :- NonEmpty(card, "status");
    if status !in {"loading", "ready", "error"} then None
    else
      var fallback :- OptionalString(card, "fallback_text");
      var summary :- OptionalString(card, "summary");
      Some(Texts(title, intent, status, fallback, summary))
  }

  function ReadNumbers(card: Fields): Option<Numbers> {
    var view :- ReadView(card);
    var bearing :- OptionalBounded(card, "bearing", -180.0, 180.0);
    var pitch :- OptionalBounded(card, "pitch", 0.0, 85.0);
    Some(Numbers(view, bearing, pitch))
  }

  function ReadSources(card: Fields): Option<Fields> {
    var sources :- Obj(card).Get("sources");
    ProjectSources(sources)
  }

  function ReadLayers(card: Fields, sources: Fields): (r: Option<Layout>)
    ensures r.Some? ==> r.value.sources == sources
  {
    var layers :- Obj(card).Get("layers");
    if !layers.Arr? || layers.items == [] then None
    else
      var scan :- ScanLayers(layers.items, sources.Keys);
      var extensions :- ReadExtensions(card, scan);
      Some(Layout(sources, layers.items, extensions))
  }

  function ReadLayout(card: Fields): Option<Layout> {
    var sources :- ReadSources(card);
    ReadLayers(card, sources)
  }

  function ReadCard(card: Fields): Option<Card> {
    if !(card.Keys <= CARD_FIELDS) then None
    else
      var texts :- ReadTexts(card);
      var layout :- ReadLayout(card);
      var numbers :- ReadNumbers(card);
      Some(Card(texts, layout, numbers))
  }

  function ProjectCard(card: Fields): Option<Json> {
    var c :- ReadCard(card);
    Some(Obj(Render(c)))
  }

  // ----- Projecting twice -----------------------------------------------------

  lemma ResourceTwice(data: Fields)
    requires ProjectResource(data).Some?
    ensures ProjectData(ProjectResource(data).value) == ProjectResource(data)
  {
    TrimIsTrimmed(data["server"].s);
    TrimIsTrimmed(data["uri"].s);
    TrimIsTrimmed(Trim(data["server"].s));
    TrimIsTrimmed(Trim(data["uri"].s));
  }

  lemma RootIsNoData(root: string)
    requires root in GEOJSON_ROOTS
    ensures !StartsWith(root, "data:")
  {
    assert root[0] != 'd';
  }

  lemma RootIsKept(geojson: Json)
    requires IsGeojsonRoot(geojson)
    ensures IsGeojsonRoot(Sanitize(geojson, "geojson"))
  {
    GeojsonAndTypeArePublic();
    RootIsNoData(geojson.GetStr("type").value);
    assert !IsPathKey("type");
    assert Sanitize(geojson.fields["type"], "type") == geojson.fields["type"];
  }

  lemma InlineDataReads(geojson: Json)
    requires IsGeojsonRoot(geojson)
    ensures ProjectData(InlineData(geojson)) == Some(InlineData(Sanitize(geojson, "geojson")))
  {
  }

  lemma InlineTwice(data: Fields)
    requires ProjectInline(data).Some?
    ensures ProjectData(ProjectInline(data).value) == ProjectInline(data)
  {
    var geojson := data["geojson"];
    SanitizeTwice(geojson, "geojson");
    RootIsKept(geojson);
    InlineDataReads(Sanitize(geojson, "geojson"));
  }

  lemma DataTwice(data: Json)
    requires ProjectData(data).Some?
    ensures ProjectData(ProjectData(data).value) == ProjectData(data)
  {
    if data.GetStr("type") == Some("mcp_resource") { ResourceTwice(data.fields); } else { InlineTwice(data.fields); }
  }

  lemma SourceTwice(source: Json)
    requires ProjectSource(source).Some?
    ensures ProjectSource(ProjectSource(source).value) == ProjectSource(source)
  {
    DataTwice(source.fields["data"]);
    var projected := ProjectSource(source).value;
    assert projected.fields - {"data"} == source.fields - {"data"};
    assert projected.fields["data" := projected.fields["data"]] == projected.fields;
    assert "type" != "data";
  }

  lemma AllTwice(fields: Fields, project: Json -> Option<Json>)
    requires forall k :: k in fields && project(fields[k]).Some? ==>
               project(project(fields[k]).value) == project(fields[k])
    requires ProjectAll(fields, project).Some?
    ensures ProjectAll(fields, project).value.Keys == fields.Keys
    ensures ProjectAll(ProjectAll(fields, project).value, project) == ProjectAll(fields, project)
  {
    var once := ProjectAll(fields, project).value;
    forall k | k in once ensures project(once[k]) == Some(once[k]) { assert once[k] == project(fields[k]).value; }
    assert (map k | k in once :: project(once[k]).value) == once;
  }

  lemma SourcesTwice(value: Json)
    requires ProjectSources(value).Some?
    ensures ProjectSources(Obj(ProjectSources(value).value)) == ProjectSources(value)
  {
    forall k | k in value.fields && ProjectSource(value.fields[k]).Some?
      ensures ProjectSource(ProjectSource(value.fields[k]).value) == ProjectSource(value.fields[k])
    {
      SourceTwice(value.fields[k]);
    }
    AllTwice(value.fields, ProjectSource);
    SameIds(value.fields, ProjectSources(value).value);
  }

  lemma SameIds(fields: Fields, others: Fields)
    requires SourceIdsOk(fields) && fields.Keys == others.Keys
    ensures SourceIdsOk(others)
  {
  }

  /** The text fields of a card that was read are trimmed and not blank. */
  lemma ReadText(card: Fields, key: string)
    requires NonEmpty(card, key).Some?
    ensures Trimmed(NonEmpty(card, key).value) && NonEmpty(card, key).value != ""
  {
    TrimIsTrimmed(card[key].s);
  }

  lemma RenderedText(fields: Fields, key: string, text: string)
    requires key in fields && fields[key] == Str(text) && Trimmed(text) && text != ""
    ensures NonEmpty(fields, key) == Some(text)
  {
    TrimIsTrimmed(text);
  }

  lemma OptionalTextTwice(card: Fields, again: Fields, key: string, text: Option<string>)
    requires OptionalString(card, key) == Some(text)
    requires Obj(again).Get(key) == if text.Some? then Some(Str(text.value)) else None
    ensures OptionalString(again, key) == Some(text)
  {
    if text.Some? {
      ReadText(card, key);
      RenderedText(again, key, text.value);
    }
  }

  /** The fields of a printed card, one by one. */
  ghost predicate PrintsTexts(t: Texts, again: Json) {
    && again.Get("title") == Some(Str(t.title)) && again.Get("intent") == Some(Str(t.intent))
    && again.Get("status") == Some(Str(t.status))
    && again.Get("fallback_text") == (if t.fallback.Some? then Some(Str(t.fallback.value)) else None)
    && again.Get("summary") == (if t.summary.Some? then Some(Str(t.summary.value)) else None)
  }

  ghost predicate PrintsNumbers(n: Numbers, again: Json) {
    && again.Get("center") ==
       (if n.view.Some? then Some(Arr([FloatJson(n.view.value.longitude), FloatJson(n.view.value.latitude)])) else None)
    && again.Get("zoom") == (if n.view.Some? then Some(FloatJson(n.view.value.zoom)) else None)
    && again.Get("bearing") == (if n.bearing.Some? then Some(FloatJson(n.bearing.value)) else None)
    && again.Get("pitch") == (if n.pitch.Some? then Some(FloatJson(n.pitch.value)) else None)
  }

  ghost predicate PrintsLayout(l: Layout, again: Json) {
    && again.Get("sources") == Some(Obj(l.sources)) && again.Get("layers") == Some(Arr(l.layers))
    && again.Get("extensions") == l.extensions
  }

  lemma RenderPrints(c: Card)
    ensures PrintsTexts(c.texts, Obj(Render(c)))
    ensures PrintsNumbers(c.numbers, Obj(Render(c)))
    ensures PrintsLayout(c.layout, Obj(Render(c)))
  {
  }

  lemma TextsTwice(card: Fields, t: Texts, again: Fields)
    requires ReadTexts(card) == Some(t) && PrintsTexts(t, Obj(again))
    ensures ReadTexts(again) == Some(t)
  {
    ReadText(card, "title");
    ReadText(card, "intent");
    ReadText(card, "status");
    RenderedText(again, "title", t.title);
    RenderedText(again, "intent", t.intent);
    RenderedText(again, "status", t.status);
    OptionalTextTwice(card, again, "fallback_text", t.fallback);
    OptionalTextTwice(card, again, "summary", t.summary);
  }

  lemma NumbersTwice(card: Fields, n: Numbers, again: Fields)
    requires ReadNumbers(card) == Some(n) && PrintsNumbers(n, Obj(again))
    ensures ReadNumbers(again) == Some(n)
  {
  }

  lemma SourcesReadTwice(card: Fields, again: Fields)
    requires ReadSources(card).Some? && Obj(again).Get("sources") == Some(Obj(ReadSources(card).value))
    ensures ReadSources(again) == ReadSources(card)
  {
    SourcesTwice(card["sources"]);
  }

  lemma LayersTwice(card: Fields, l: Layout, again: Fields)
    requires ReadLayers(card, l.sources) == Some(l)
    requires Obj(again).Get("layers") == Some(Arr(l.layers)) && Obj(again).Get("extensions") == l.extensions
    ensures ReadLayers(again, l.sources) == Some(l)
  {
  }

  lemma LayoutParts(card: Fields, l: Layout)
    ensures ReadLayout(card) == Some(l) <==>
              ReadSources(card) == Some(l.sources) && ReadLayers(card, l.sources) == Some(l)
  {
    var sources := ReadSources(card);
    if sources.Some? {
      assert ReadLayout(card) == ReadLayers(card, sources.value);
    }
  }

  lemma LayoutTwice(card: Fields, l: Layout, again: Fields)
    requires ReadLayout(card) == Some(l) && PrintsLayout(l, Obj(again))
    ensures ReadLayout(again) == Some(l)
  {
    LayoutParts(card, l);
    SourcesReadTwice(card, again);
    LayersTwice(card, l, again);
    LayoutParts(again, l);
  }

  lemma ReadAgain(card: Fields, c: Card, again: Fields)
    requires ReadCard(card) == Some(c) && again.Keys <= CARD_FIELDS
    requires PrintsTexts(c.texts, Obj(again)) && PrintsNumbers(c.numbers, Obj(again))
    requires PrintsLayout(c.layout, Obj(again))
    ensures ReadCard(again) == Some(c)
  {
    TextsTwice(card, c.texts, again);
    LayoutTwice(card, c.layout, again);
    NumbersTwice(card, c.numbers, again);
  }

  /** Projecting the projection of any accepted card gives that projection back. */
  lemma ProjectTwice(card: Fields)
    requires ProjectCard(card).Some?
    ensures ProjectCard(card).value.Obj? && ProjectCard(ProjectCard(card).value.fields) == ProjectCard(card)
  {
    var c := ReadCard(card).value;
    RenderPrints(c);
    ReadAgain(card, c, Render(c));
  }

  // ----- What an accepted card guarantees -------------------------------------

  ghost predicate IsLayer(layer: Json, id: string) {
    layer.Obj? && NonEmpty(layer.fields, "id") == Some(id)
  }

  ghost predicate DrawsFrom(layer: Json, sources: set<string>) {
    && layer.Obj? && NonEmpty(layer.fields, "id").Some?
    && ("source" in layer.fields ==> layer.fields["source"].Str? && layer.fields["source"].s in sources)
  }

  ghost predicate Backs(layers: seq<Json>, id: string) {
    exists i :: 0 <= i < |layers| && IsLayer(layers[i], id) && "source" in layers[i].fields
  }

  ghost predicate LayersLinked(layers: seq<Json>, sources: set<string>) {
    && (forall i {:trigger DrawsFrom(layers[i], sources)} :: 0 <= i < |layers| ==> DrawsFrom(layers[i], sources))
    && (forall i, j, id {:trigger IsLayer(layers[i], id), IsLayer(layers[j], id)} ::
          0 <= i < j < |layers| && IsLayer(layers[i], id) ==> !IsLayer(layers[j], id))
  }

  /** Some hover entry of the extensions names this layer. */
  ghost predicate HoversOver(extensions: Json, id: string) {
    && extensions.Get("hover").Some?
    && var layers := extensions.fields["hover"].Get("layers");
    && layers.Some? && layers.value.Arr?
    && exists i :: 0 <= i < |layers.value.items| && layers.value.items[i].Obj?
                   && NonEmpty(layers.value.items[i].fields, "layer") == Some(id)
  }

  /** Unique layer ids, existing sources, and hover targets that draw from a source. */
  ghost predicate Linked(card: Json) {
    && card.Get("sources").Some? && card.fields["sources"].Obj?
    && card.Get("layers").Some? && card.fields["layers"].Arr?
    && LayersLinked(card.fields["layers"].items, card.fields["sources"].fields.Keys)
    && (card.Get("extensions").Some? ==>
          forall id :: HoversOver(card.fields["extensions"], id) ==> Backs(card.fields["layers"].items, id))
  }

  ghost predicate Scanned(layers: seq<Json>, sources: set<string>, scan: Scan) {
    && LayersLinked(layers, sources)
    && (forall i, id {:trigger IsLayer(layers[i], id)} :: 0 <= i < |layers| && IsLayer(layers[i], id) ==>
          id in scan.ids)
    && (forall id :: id in scan.backed ==> Backs(layers, id))
  }

  lemma BacksMore(layers: seq<Json>, more: seq<Json>, id: string)
    requires Backs(layers, id)
    ensures Backs(layers + more, id)
  {
    var i :| 0 <= i < |layers| && IsLayer(layers[i], id) && "source" in layers[i].fields;
    assert IsLayer((layers + more)[i], id);
  }

  lemma LayerScanned(layers: seq<Json>, layer: Json, sources: set<string>, scan: Scan)
    requires Scanned(layers, sources, scan) && ScanLayer(scan, layer, sources).Some?
    ensures Scanned(layers + [layer], sources, ScanLayer(scan, layer, sources).value)
  {
    var all, next := layers + [layer], ScanLayer(scan, layer, sources).value;
    var id := NonEmpty(layer.fields, "id").value;
    assert IsLayer(all[|layers|], id);
    forall i | 0 <= i < |layers| ensures all[i] == layers[i] && !IsLayer(layers[i], id) {}
    forall b | b in next.backed ensures Backs(all, b) {
      if b in scan.backed { BacksMore(layers, [layer], b); }
    }
  }

  /** What holds of no layers and survives every scanned layer holds of a whole scan. */
  lemma {:induction false} ScanInduction(layers: seq<Json>, n: nat, scanner: (Scan, Json) -> Option<Scan>,
                                         holds: (seq<Json>, Scan) -> bool)
    requires n <= |layers| && ScanWith(layers, n, scanner).Some? && holds([], Scan({}, {}))
    requires forall before, layer, scan {:trigger holds(before, scan), scanner(scan, layer)} ::
               holds(before, scan) && scanner(scan, layer).Some? ==> holds(before + [layer], scanner(scan, layer).value)
    ensures holds(layers[..n], ScanWith(layers, n, scanner).value)
  {
    if n == 0 {
      assert layers[..n] == [];
    } else {
      assert layers[..n] == layers[..n - 1] + [layers[n - 1]];
      ScanInduction(layers, n - 1, scanner, holds);
    }
  }

  lemma LayersScanned(layers: seq<Json>, sources: set<string>)
    requires ScanLayers(layers, sources).Some?
    ensures Scanned(layers, sources, ScanLayers(layers, sources).value)
  {
    var holds := (before, scan) => Scanned(before, sources, scan);
    forall before, layer, scan | holds(before, scan) && ScanLayer(scan, layer, sources).Some?
      ensures holds(before + [layer], ScanLayer(scan, layer, sources).value)
    {
      LayerScanned(before, layer, sources, scan);
    }
    ScanInduction(layers, |layers|, Scanner(sources), holds);
    assert layers[..|layers|] == layers;
  }

  lemma HoverIsBacked(extensions: Json, scan: Scan, id: string)
    requires ExtensionsOk(extensions, scan) && HoversOver(extensions, id)
    ensures id in scan.backed
  {
    var layers := extensions.fields["hover"].Get("layers").value.items;
    var i :| 0 <= i < |layers| && layers[i].Obj? && NonEmpty(layers[i].fields, "layer") == Some(id);
    assert HoverLayerOk(layers[i], scan);
  }

  lemma LayoutIsLinked(card: Fields, l: Layout)
    requires ReadLayers(card, l.sources) == Some(l)
    ensures LayersLinked(l.layers, l.sources.Keys)
    ensures l.extensions.Some? ==> forall id :: HoversOver(l.extensions.value, id) ==> Backs(l.layers, id)
  {
    var scan := ScanLayers(l.layers, l.sources.Keys).value;
    LayersScanned(l.layers, l.sources.Keys);
    if l.extensions.Some? {
      forall id | HoversOver(l.extensions.value, id) ensures Backs(l.layers, id) {
        HoverIsBacked(l.extensions.value, scan, id);
      }
    }
  }

  lemma PrintedIsLinked(card: Fields, l: Layout, printed: Json)
    requires ReadLayout(card) == Some(l) && PrintsLayout(l, printed)
    ensures Linked(printed)
  {
    LayoutParts(card, l);
    LayoutIsLinked(card, l);
  }

  /** The layout an accepted card was read with is the one it is printed with. */
  lemma CardPrints(card: Fields) returns (l: Layout)
    requires ProjectCard(card).Some?
    ensures ReadLayout(card) == Some(l) && PrintsLayout(l, ProjectCard(card).value)
  {
    var c := ReadCard(card).value;
    RenderPrints(c);
    l := c.layout;
  }

  /** Every accepted card is linked up correctly. */
  lemma AcceptedIsLinked(card: Fields)
    requires ProjectCard(card).Some?
    ensures Linked(ProjectCard(card).value)
  {
    var l := CardPrints(card);
    PrintedIsLinked(card, l, ProjectCard(card).value);
  }

  ghost predicate FloatWithin(value: Option<Json>, low: real, high: real) {
    value.Some? ==> value.value.Num? && value.value.number.Float? && low <= value.value.number.x <= high
  }

  ghost predicate GoodText(value: Option<Json>) {
    value.Some? && value.value.Str? && value.value.s != "" && Trimmed(value.value.s)
  }

  /** The texts are trimmed and not blank. */
  ghost predicate TextsGood(card: Json) {
    && GoodText(card.Get("title")) && GoodText(card.Get("intent"))
    && card.GetStr("status") in {Some("loading"), Some("ready"), Some("error")}
    && (card.Get("fallback_text").Some? ==> GoodText(card.Get("fallback_text")))
    && (card.Get("summary").Some? ==> GoodText(card.Get("summary")))
  }

  /** The view is complete or absent, and all numbers are in range. */
  ghost predicate NumbersGood(card: Json) {
    && (card.Get("center").Some? <==> card.Get("zoom").Some?)
    && (card.Get("center").Some? ==>
          && card.fields["center"].Arr? && |card.fields["center"].items| == 2
          && FloatWithin(Some(card.fields["center"].items[0]), -180.0, 180.0)
          && FloatWithin(Some(card.fields["center"].items[1]), -90.0, 90.0))
    && FloatWithin(card.Get("zoom"), 0.0, 24.0)
    && FloatWithin(card.Get("bearing"), -180.0, 180.0) && FloatWithin(card.Get("pitch"), 0.0, 85.0)
  }

  lemma PrintedTextsGood(card: Fields, t: Texts, printed: Json)
    requires ReadTexts(card) == Some(t) && PrintsTexts(t, printed)
    ensures TextsGood(printed)
  {
    ReadText(card, "title");
    ReadText(card, "intent");
    if t.fallback.Some? { ReadText(card, "fallback_text"); }
    if t.summary.Some? { ReadText(card, "summary"); }
  }

  lemma PrintedNumbersGood(card: Fields, n: Numbers, printed: Json)
    requires ReadNumbers(card) == Some(n) && PrintsNumbers(n, printed)
    ensures NumbersGood(printed)
  {
  }

  lemma AcceptedIsInBounds(card: Fields)
    requires ProjectCard(card).Some?
    ensures TextsGood(ProjectCard(card).value) && NumbersGood(ProjectCard(card).value)
  {
    var c := ReadCard(card).value;
    RenderPrints(c);
    PrintedTextsGood(card, c.texts, Obj(Render(c)));
    PrintedNumbersGood(card, c.numbers, Obj(Render(c)));
  }
}
