/** What the sanitiser does to every key, path and value, said without following its steps. */
module Redaction {
  import opened Basics
  import opened Text
  import opened Sanitizer

  // ----- Keys -----------------------------------------------------------------

  predicate IsJoint(c: char) { c == '_' || c == '-' }

  /** The same character up to ASCII case. */
  ghost predicate SameLetter(c: char, d: char) {
    || c == d
    || ('A' <= c <= 'Z' && d as int == c as int + 32)
    || ('A' <= d <= 'Z' && c as int == d as int + 32)
  }

  /** The keys differ only in ASCII case, dashes and underscores. */
  ghost predicate SameKey(a: string, b: string)
    decreases |a| + |b|
  {
    if a != "" && IsJoint(a[0]) then SameKey(a[1..], b)
    else if b != "" && IsJoint(b[0]) then SameKey(a, b[1..])
    else if a == "" || b == "" then a == b
    else SameLetter(a[0], b[0]) && SameKey(a[1..], b[1..])
  }

  /** Lower case and without dashes and underscores. */
  ghost predicate IsPlain(s: string) { forall i :: 0 <= i < |s| ==> !('A' <= s[i] <= 'Z') && !IsJoint(s[i]) }

  lemma {:induction false} SameKeySameForm(a: string, b: string)
    ensures SameKey(a, b) <==> Normalized(a) == Normalized(b)
    decreases |a| + |b|
  {
    if a != "" && IsJoint(a[0]) {
      SameKeySameForm(a[1..], b);
    } else if b != "" && IsJoint(b[0]) {
      SameKeySameForm(a, b[1..]);
    } else if a != "" && b != "" {
      SameKeySameForm(a[1..], b[1..]);
      var x, y := Normalized(a), Normalized(b);
      assert x == [x[0]] + Normalized(a[1..]) && y == [y[0]] + Normalized(b[1..]);
      assert x[1..] == Normalized(a[1..]) && y[1..] == Normalized(b[1..]);
    }
  }

  lemma {:induction false} PlainIsNormal(s: string)
    ensures IsPlain(s) <==> Normalized(s) == s
    ensures IsPlain(Normalized(s))
  {
    if s == "" {
    } else {
      PlainIsNormal(s[1..]);
      assert s == [s[0]] + s[1..];
      NoLonger(s[1..]);
      assert IsPlain(s) ==> IsPlain(s[1..]);
    }
  }

  lemma {:induction false} NoLonger(s: string)
    ensures |Normalized(s)| <= |s|
  {
    if s == "" {
    } else {
      NoLonger(s[1..]);
    }
  }

  /** Keys that differ only in case, dashes and underscores are equally sensitive. */
  lemma EquallySensitive(a: string, b: string)
    requires SameKey(a, b)
    ensures IsSensitive(a) <==> IsSensitive(b)
  {
    SameKeySameForm(a, b);
  }

  ghost predicate IsSecretWord(w: string) {
    w in {"authorization", "cookie", "credential", "password", "secret", "token", "apikey", "stdin", "chars"}
  }

  ghost predicate IsCounter(s: string) {
    s in {"tokenusage", "inputtokens", "cachedinputtokens", "cachewriteinputtokens", "outputtokens",
          "reasoningoutputtokens", "totaltokens", "modelcontextwindow"}
  }

  /** Some secret word stands in the text. */
  ghost predicate HoldsSecret(s: string) {
    exists w, i: nat :: IsSecretWord(w) && FoundAt(s, w, i)
  }

  lemma SecretWords(w: string)
    ensures IsSecretWord(w) <==> w in SECRETS
  {
    assert SECRETS ==
           ["authorization", "cookie", "credential", "password", "secret", "token", "apikey", "stdin", "chars"];
  }

  lemma HoldsSecretIff(s: string)
    ensures HoldsSecret(s) <==> exists i :: 0 <= i < |SECRETS| && Contains(s, SECRETS[i])
  {
    if w, i: nat :| IsSecretWord(w) && FoundAt(s, w, i) {
      SecretWords(w);
      ContainsIff(s, w);
    }
    if k :| 0 <= k < |SECRETS| && Contains(s, SECRETS[k]) {
      SecretWords(SECRETS[k]);
      ContainsIff(s, SECRETS[k]);
    }
  }

  lemma CountersAre(s: string)
    ensures IsCounter(s) <==> s in COUNTERS
  {
  }

  lemma SensitiveByForm(key: string)
    ensures IsSensitive(key) <==> Normalized(key) !in COUNTERS && HoldsSecret(Normalized(key))
  {
    HoldsSecretIff(Normalized(key));
  }

  /** A key is sensitive exactly when its form without case, dashes and underscores holds a
      secret word and is not one of the counters. */
  lemma SensitiveIff(key: string, form: string)
    requires SameKey(key, form) && IsPlain(form)
    ensures IsSensitive(key) <==> !IsCounter(form) && HoldsSecret(form)
  {
    FormIsUnique(key, form);
    SensitiveByForm(key);
    CountersAre(form);
  }

  /** Every key has exactly one such form. */
  lemma FormIsUnique(key: string, form: string)
    ensures SameKey(key, form) && IsPlain(form) <==> form == Normalized(key)
  {
    PlainIsNormal(key);
    PlainIsNormal(form);
    PlainIsNormal(Normalized(key));
    SameKeySameForm(key, form);
  }

  // ----- Paths ----------------------------------------------------------------

  ghost predicate IsSlash(c: char) { c == '/' || c == '\\' }

  /** Rooted at a slash of either kind, or with a drive's colon as its second byte. */
  ghost predicate IsRooted(path: string) {
    || (path != "" && IsSlash(path[0]))
    || (|path| > 1 && path[0] < '\U{80}' && path[1] == ':')
  }

  /** `path[i..j]` is a component, and only separators follow it. */
  ghost predicate IsLastComponent(path: string, i: nat, j: nat) {
    && i < j <= |path| && (i == 0 || IsSlash(path[i - 1]))
    && (forall k :: i <= k < j ==> !IsSlash(path[k])) && (forall k :: j <= k < |path| ==> IsSlash(path[k]))
  }

  lemma {:induction false} LastPartFound(path: string) returns (i: nat)
    requires path != "" && !IsSlash(path[|path| - 1])
    ensures IsLastComponent(path, i, |path|) && LastPart(path) == path[i..]
  {
    var t := path[..|path| - 1];
    if t != "" && !IsSeparator(t[|t| - 1]) {
      i := LastPartFound(t);
      assert path[i..] == t[i..] + [path[|path| - 1]];
    } else {
      i := |path| - 1;
      assert path[i..] == [path[i]];
    }
  }

  /** Of an absolute path the last component is kept, or the word path if it has none. */
  lemma {:induction false} LastNameFound(path: string) returns (i: nat, j: nat)
    ensures || (LastName(path) == "path" && forall k :: 0 <= k < |path| ==> IsSlash(path[k]))
            || (IsLastComponent(path, i, j) && LastName(path) == path[i..j])
  {
    i, j := 0, |path|;
    if path != "" {
      var t := path[..|path| - 1];
      if IsSeparator(path[|path| - 1]) {
        i, j := LastNameFound(t);
        assert forall k :: 0 <= k < |t| ==> t[k] == path[k];
        assert j <= |t| && i <= j ==> t[i..j] == path[i..j];
      } else {
        i := LastPartFound(path);
        assert path[i..] == path[i..|path|];
      }
    }
  }

  // ----- Values ---------------------------------------------------------------

  /** A step into a value. */
  datatype Hop = Item(i: nat) | Field(key: string)

  /** The value a path leads to. */
  function Follow(value: Json, path: seq<Hop>): Option<Json> {
    if path == [] then Some(value)
    else
      match path[0]
      case Item(i) => if value.Arr? && i < |value.items| then Follow(value.items[i], path[1..]) else None
      case Field(key) => if value.Obj? && key in value.fields then Follow(value.fields[key], path[1..]) else None
  }

  /** The key that holds what the path leads to. */
  function KeyAlong(key: string, path: seq<Hop>): string
    decreases |path|
  {
    if path == [] then key else KeyAlong(if path[0].Field? then path[0].key else key, path[1..])
  }

  /** No key on the way is sensitive. */
  ghost predicate IsPublic(key: string, path: seq<Hop>)
    decreases |path|
  {
    !IsSensitive(key) && (path == [] || IsPublic(if path[0].Field? then path[0].key else key, path[1..]))
  }

  lemma {:induction false} SanitizedAlong(value: Json, key: string, path: seq<Hop>)
    requires IsPublic(key, path)
    ensures !IsSensitive(KeyAlong(key, path))
    ensures match Follow(value, path)
            case None => Follow(Sanitize(value, key), path).None?
            case Some(v) => Follow(Sanitize(value, key), path) == Some(Sanitize(v, KeyAlong(key, path)))
    decreases |path|
  {
    if path == [] {
    } else {
      match path[0]
      case Item(i) =>
        SanitizedAlong(if value.Arr? && i < |value.items| then value.items[i] else Null, key, path[1..]);
      case Field(k) =>
        SanitizedAlong(if value.Obj? && k in value.fields then value.fields[k] else Null, k, path[1..]);
    }
  }

  /** What is left of a value under a key that is not sensitive. */
  ghost predicate IsMasked(value: Json, key: string, out: Json) {
    match value
    case Arr(items) => out.Arr? && |out.items| == |items|
    case Obj(fields) =>
      && out.Obj? && out.fields.Keys == fields.Keys
      && forall k :: k in fields && IsSensitive(k) ==> out.fields[k] == Str("[redacted]")
    case Str(s) =>
      if key in {"path", "cwd", "savedPath", "agentPath"}
      then out == Str(if IsRooted(s) then "[workspace-path]/" + LastName(s) else s)
      else if "data:" <= s then out == Str("[embedded-data]") else out == value
    case _ => out == value
  }

  /** Wherever no sensitive key is on the way, the output has the value of the same place, with
      absolute paths, embedded data and the values of sensitive keys masked, and nothing else. */
  lemma MasksInPlace(value: Json, key: string, path: seq<Hop>)
    requires IsPublic(key, path)
    ensures Follow(Sanitize(value, key), path).Some? <==> Follow(value, path).Some?
    ensures Follow(value, path).Some? ==>
              IsMasked(Follow(value, path).value, KeyAlong(key, path), Follow(Sanitize(value, key), path).value)
  {
    SanitizedAlong(value, key, path);
  }
}
