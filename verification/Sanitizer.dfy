/** JSON values and the sanitiser every projected payload passes through. */
module Sanitizer {
  import opened Basics
  import opened Text

  /** Integers and floats are different values even when numerically equal. */
  datatype Number = Whole(n: int) | Float(x: real)

  datatype Json =
    | Null
    | Bool(b: bool)
    | Num(number: Number)
    | Str(s: string)
    | Arr(items: seq<Json>)
    | Obj(fields: map<string, Json>)
  {
    function Get(key: string): Option<Json> {
      if Obj? && key in fields then Some(fields[key]) else None
    }

    function AsStr(): Option<string> {
      if Str? then Some(s) else None
    }

    function GetStr(key: string): Option<string> {
      var value :- Get(key);
      value.AsStr()
    }
  }

  // ----- Keys -----------------------------------------------------------------

  function Normalized(key: string): string {
    if key == "" then ""
    else
      var c, rest := key[0], Normalized(key[1..]);
      if c == '_' || c == '-' then rest
      else [if 'A' <= c <= 'Z' then c - 'A' + 'a' else c] + rest
  }

  const COUNTERS: set<string> :=
    {"tokenusage", "inputtokens", "cachedinputtokens", "cachewriteinputtokens", "outputtokens",
     "reasoningoutputtokens", "totaltokens", "modelcontextwindow"}

  const SECRETS: seq<string> :=
    ["authorization", "cookie", "credential", "password", "secret", "token", "apikey", "stdin", "chars"]

  predicate IsSensitive(key: string) {
    Normalized(key) !in COUNTERS && exists i :: 0 <= i < |SECRETS| && Contains(Normalized(key), SECRETS[i])
  }

  predicate IsPathKey(key: string) {
    key in {"path", "cwd", "savedPath", "agentPath"}
  }

  // ----- Paths ----------------------------------------------------------------

  predicate IsSeparator(c: char) { c == '/' || c == '\\' }

  /** Rooted, or with a colon as its second byte. */
  predicate IsAbsolute(path: string) {
    || (path != "" && IsSeparator(path[0]))
    || (|path| > 1 && path[0] < '\U{80}' && path[1] == ':')
  }

  function LastPart(path: string): string {
    if path == "" || IsSeparator(path[|path| - 1]) then ""
    else LastPart(path[..|path| - 1]) + [path[|path| - 1]]
  }

  /** The last non-empty component. */
  function LastName(path: string): string {
    if path == "" then "path"
    else if IsSeparator(path[|path| - 1]) then LastName(path[..|path| - 1])
    else LastPart(path)
  }

  const WORKSPACE := "[workspace-path]/"

  function SafePath(path: string): string {
    if IsAbsolute(path) then WORKSPACE + LastName(path) else path
  }

  lemma {:induction false} LastPartHasNoSeparator(path: string)
    ensures forall c :: c in LastPart(path) ==> !IsSeparator(c)
  {
    if path != "" && !IsSeparator(path[|path| - 1]) { LastPartHasNoSeparator(path[..|path| - 1]); }
  }

  /** A safe path is never absolute, and of an absolute path it keeps one component. */
  lemma {:induction false} SafePathIsRelative(path: string)
    ensures !IsAbsolute(SafePath(path))
    ensures LastName(path) != "" && forall c :: c in LastName(path) ==> !IsSeparator(c)
  {
    assert SafePath(path) != path ==> SafePath(path)[0] == '[' && SafePath(path)[1] == 'w';
    if path != "" && IsSeparator(path[|path| - 1]) {
      SafePathIsRelative(path[..|path| - 1]);
    } else {
      LastPartHasNoSeparator(path);
    }
  }

  // ----- The sanitiser --------------------------------------------------------

  const REDACTED := Str("[redacted]")

  function Sanitize(value: Json, key: string): Json {
    if IsSensitive(key) then REDACTED
    else
      match value
      case Arr(items) => Arr(seq(|items|, i requires 0 <= i < |items| => Sanitize(items[i], key)))
      case Obj(fields) => Obj(map k | k in fields :: Sanitize(fields[k], k))
      case Str(s) =>
        if IsPathKey(key) then Str(SafePath(s))
        else if StartsWith(s, "data:") then Str("[embedded-data]")
        else value
      case _ => value
  }

  /** Nothing in the value needs sanitising. */
  ghost predicate Clean(value: Json, key: string) {
    if IsSensitive(key) then value == REDACTED
    else
      match value
      case Arr(items) => forall i :: 0 <= i < |items| ==> Clean(items[i], key)
      case Obj(fields) => forall k :: k in fields ==> Clean(fields[k], k)
      case Str(s) => if IsPathKey(key) then !IsAbsolute(s) else !StartsWith(s, "data:")
      case _ => true
  }

  lemma {:induction false} SanitizeIsClean(value: Json, key: string)
    ensures Clean(Sanitize(value, key), key)
  {
    if !IsSensitive(key) {
      match value
      case Arr(items) =>
        forall i | 0 <= i < |items| ensures Clean(Sanitize(items[i], key), key) { SanitizeIsClean(items[i], key); }
      case Obj(fields) =>
        forall k | k in fields ensures Clean(Sanitize(fields[k], k), k) { SanitizeIsClean(fields[k], k); }
      case Str(s) =>
        SafePathIsRelative(s);
        assert "[embedded-data]"[0] == '[';
      case _ =>
    }
  }

  /** The values the sanitiser leaves alone are exactly the clean ones. */
  lemma {:induction false} CleanIffUnchanged(value: Json, key: string)
    ensures Clean(value, key) <==> Sanitize(value, key) == value
  {
    SanitizeIsClean(value, key);
    if Clean(value, key) && !IsSensitive(key) {
      match value
      case Arr(items) =>
        forall i | 0 <= i < |items| ensures Sanitize(items[i], key) == items[i] { CleanIffUnchanged(items[i], key); }
      case Obj(fields) =>
        forall k | k in fields ensures Sanitize(fields[k], k) == fields[k] { CleanIffUnchanged(fields[k], k); }
      case _ =>
    }
  }

  lemma SanitizeTwice(value: Json, key: string)
    ensures Sanitize(Sanitize(value, key), key) == Sanitize(value, key)
  {
    SanitizeIsClean(value, key);
    CleanIffUnchanged(Sanitize(value, key), key);
  }

  /** The values are the same except below sensitive keys, where anything may differ. */
  ghost predicate SameInPublic(a: Json, b: Json, key: string) {
    || IsSensitive(key)
    || a == b
    || (a.Arr? && b.Arr? && |a.items| == |b.items| && forall i :: 0 <= i < |a.items| ==>
      SameInPublic(a.items[i], b.items[i], key))
    || (a.Obj? && b.Obj? && a.fields.Keys == b.fields.Keys && forall k :: k in a.fields ==>
      SameInPublic(a.fields[k], b.fields[k], k))
  }

  /** Nothing below a sensitive key can be told from the output. */
  lemma {:induction false} SecretsDoNotShow(a: Json, b: Json, key: string)
    requires SameInPublic(a, b, key)
    ensures Sanitize(a, key) == Sanitize(b, key)
  {
    if !IsSensitive(key) && a != b {
      if a.Arr? {
        forall i | 0 <= i < |a.items| ensures Sanitize(a.items[i], key) == Sanitize(b.items[i], key) {
          SecretsDoNotShow(a.items[i], b.items[i], key);
        }
      } else {
        forall k | k in a.fields ensures Sanitize(a.fields[k], k) == Sanitize(b.fields[k], k) {
          SecretsDoNotShow(a.fields[k], b.fields[k], k);
        }
      }
    }
  }

  // ----- Keys that are not sensitive ------------------------------------------

  lemma {:induction false} LowerCaseIsNormal(key: string)
    requires forall i :: 0 <= i < |key| ==> 'a' <= key[i] <= 'z'
    ensures Normalized(key) == key
  {
    if key == "" {
    } else {
      LowerCaseIsNormal(key[1..]);
      assert key == [key[0]] + key[1..];
    }
  }

  /** A key that lacks one letter of every secret word is public. */
  lemma LacksLetters(key: string, letters: string)
    requires |letters| == |SECRETS| && forall i :: 0 <= i < |SECRETS| ==> letters[i] in SECRETS[i] && letters[i] !in key
    requires forall i :: 0 <= i < |key| ==> 'a' <= key[i] <= 'z'
    ensures !IsSensitive(key)
  {
    LowerCaseIsNormal(key);
    forall i | 0 <= i < |SECRETS| ensures !Contains(key, SECRETS[i]) {
      if Contains(key, SECRETS[i]) { PartOf(key, SECRETS[i], letters[i]); }
    }
  }

  lemma GeojsonAndTypeArePublic()
    ensures !IsSensitive("geojson") && !IsSensitive("type")
  {
    LacksLetters("geojson", "accpctatc");
    LacksLetters("type", "accasoasc");
  }
}
