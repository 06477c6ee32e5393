/** An accepted map card says what the given card said, field by field. */
module CardContent {
  import opened Basics
  import opened Text
  import opened Sanitizer
  import opened MapCard

  /** Both have this text, the second without white space around it. */
  ghost predicate SameText(card: Json, out: Json, key: string) {
    && card.Get(key).Some? && card.fields[key].Str? && out.Get(key).Some? && out.fields[key].Str?
    && IsTrim(card.fields[key].s, out.fields[key].s)
  }

  /** The text is absent from the second exactly when it is absent or null in the first. */
  ghost predicate SameOptionalText(card: Json, out: Json, key: string) {
    if card.Get(key) in {None, Some(Null)} then out.Get(key).None? else SameText(card, out, key)
  }

  ghost predicate SameNumber(given: Json, out: Json) {
    && given.Num? && out.Num? && out.number.Float?
    && match given.number
       case Whole(n) => out.number.x == n as real
       case Float(x) => out.number.x == x
  }

  ghost predicate SameOptionalNumber(card: Json, out: Json, key: string) {
    && (card.Get(key).Some? <==> out.Get(key).Some?)
    && (card.Get(key).Some? ==> SameNumber(card.fields[key], out.fields[key]))
  }

  ghost predicate SameCenter(card: Json, out: Json) {
    && (card.Get("center").Some? <==> out.Get("center").Some?)
    && (card.Get("center").Some? ==>
          var a, b := card.fields["center"], out.fields["center"];
          && a.Arr? && b.Arr? && |a.items| == |b.items| == 2
          && SameNumber(a.items[0], b.items[0]) && SameNumber(a.items[1], b.items[1]))
  }

  ghost predicate SameTexts(card: Json, out: Json) {
    && SameText(card, out, "title") && SameText(card, out, "intent") && SameText(card, out, "status")
    && SameOptionalText(card, out, "fallback_text") && SameOptionalText(card, out, "summary")
  }

  ghost predicate SameNumbers(card: Json, out: Json) {
    && SameCenter(card, out) && SameOptionalNumber(card, out, "zoom")
    && SameOptionalNumber(card, out, "bearing") && SameOptionalNumber(card, out, "pitch")
  }

  // ----- Sources --------------------------------------------------------------

  ghost predicate SameField(a: Json, b: Json, key: string) { a.Get(key).Some? && b.Get(key) == a.Get(key) }

  /** A resource with the same server and address, or inline data with the sanitised content. */
  ghost predicate SameData(a: Json, b: Json) {
    && a.Obj? && b.Obj? && b.fields.Keys == a.fields.Keys && SameField(a, b, "type") && SameField(a, b, "format")
    && (if a.Get("type") == Some(Str("mcp_resource"))
        then SameText(a, b, "server") && SameText(a, b, "uri")
        else a.Get("geojson").Some? && b.Get("geojson") == Some(Sanitize(a.fields["geojson"], "geojson")))
  }

  /** The same source up to its data. */
  ghost predicate SameSource(a: Json, b: Json) {
    && a.Obj? && b.Obj? && b.fields.Keys == a.fields.Keys && "data" in a.fields
    && (forall k :: k in a.fields && k != "data" ==> b.fields[k] == a.fields[k])
    && SameData(a.fields["data"], b.fields["data"])
  }

  ghost predicate SameSources(a: Fields, b: Fields) {
    b.Keys == a.Keys && forall id :: id in a ==> SameSource(a[id], b[id])
  }

  ghost predicate SameLayout(card: Json, out: Json) {
    && card.Get("sources").Some? && card.fields["sources"].Obj? && out.Get("sources").Some?
    && out.fields["sources"].Obj? && SameSources(card.fields["sources"].fields, out.fields["sources"].fields)
    && SameField(card, out, "layers") && out.Get("extensions") == card.Get("extensions")
  }

  lemma ResourceKeepsContent(data: Fields)
    requires data.Keys == {"type", "server", "uri", "format"} && Obj(data).GetStr("type") == Some("mcp_resource")
    requires ProjectResource(data).Some?
    ensures SameData(Obj(data), ProjectResource(data).value)
  {
    TrimIff(data["server"].s, Trim(data["server"].s));
    TrimIff(data["uri"].s, Trim(data["uri"].s));
  }

  lemma DataKeepsContent(data: Json)
    requires ProjectData(data).Some?
    ensures SameData(data, ProjectData(data).value)
  {
    var fields := data.fields;
    assert data == Obj(fields);
    if data.GetStr("type") == Some("mcp_resource") {
      assert fields.Keys == {"type", "server", "uri", "format"};
      ResourceKeepsContent(fields);
    } else {
      assert fields.Keys == {"type", "format", "geojson"};
    }
  }

  lemma SourceKeepsContent(source: Json)
    requires ProjectSource(source).Some?
    ensures SameSource(source, ProjectSource(source).value)
  {
    DataKeepsContent(source.fields["data"]);
  }

  lemma SourcesKeepContent(card: Fields)
    requires ReadSources(card).Some?
    ensures SameSources(card["sources"].fields, ReadSources(card).value)
  {
    var sources := card["sources"].fields;
    forall id | id in sources ensures SameSource(sources[id], ReadSources(card).value[id]) {
      SourceKeepsContent(sources[id]);
    }
  }

  lemma LayoutKeepsContent(card: Fields, l: Layout, out: Json)
    requires ReadLayout(card) == Some(l) && PrintsLayout(l, out)
    ensures SameLayout(Obj(card), out)
  {
    LayoutParts(card, l);
    SourcesKeepContent(card);
    LayersAreKept(card, l);
  }

  lemma LayersAreKept(card: Fields, l: Layout)
    requires ReadLayers(card, l.sources) == Some(l)
    ensures Obj(card).Get("layers") == Some(Arr(l.layers)) && l.extensions == Obj(card).Get("extensions")
  {
  }

  // ----- The card -------------------------------------------------------------

  lemma TextIsKept(card: Fields, key: string, text: string, out: Json)
    requires NonEmpty(card, key) == Some(text) && out.Get(key) == Some(Str(text))
    ensures SameText(Obj(card), out, key)
  {
    TrimIff(card[key].s, text);
  }

  lemma OptionalTextIsKept(card: Fields, key: string, text: Option<string>, out: Json)
    requires OptionalString(card, key) == Some(text)
    requires out.Get(key) == if text.Some? then Some(Str(text.value)) else None
    ensures SameOptionalText(Obj(card), out, key)
  {
    if text.Some? { TextIsKept(card, key, text.value, out); }
  }

  lemma TextsKeepContent(card: Fields, t: Texts, out: Json)
    requires ReadTexts(card) == Some(t) && PrintsTexts(t, out)
    ensures SameTexts(Obj(card), out)
  {
    TextIsKept(card, "title", t.title, out);
    TextIsKept(card, "intent", t.intent, out);
    TextIsKept(card, "status", t.status, out);
    OptionalTextIsKept(card, "fallback_text", t.fallback, out);
    OptionalTextIsKept(card, "summary", t.summary, out);
  }

  lemma NumbersKeepContent(card: Fields, n: Numbers, out: Json)
    requires ReadNumbers(card) == Some(n) && PrintsNumbers(n, out)
    ensures SameNumbers(Obj(card), out)
  {
  }

  /** The given and the projected card agree: texts up to outer white space, numbers in value,
      sources up to their data, layers and extensions as they are, and no other field. */
  ghost predicate SameCard(card: Json, out: Json) {
    && out.Obj? && out.fields.Keys <= CARD_FIELDS
    && SameTexts(card, out) && SameNumbers(card, out) && SameLayout(card, out)
  }

  /** Every accepted card keeps its content. */
  lemma AcceptedKeepsContent(card: Fields)
    requires ProjectCard(card).Some?
    ensures SameCard(Obj(card), ProjectCard(card).value)
  {
    var c := ReadCard(card).value;
    var out := Obj(Render(c));
    RenderPrints(c);
    TextsKeepContent(card, c.texts, out);
    NumbersKeepContent(card, c.numbers, out);
    LayoutKeepsContent(card, c.layout, out);
  }
}
