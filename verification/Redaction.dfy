/**
 Recursive redaction of JSON values before display: any field with a secret-shaped key has
 its whole value replaced by a marker. The audit drawer recognises keys by a pattern, the
 trigger playground by a fixed set; both are the same traversal.
 */
module Redaction {
  import opened Options
  import opened Text

  /** A JSON value; numbers are kept as their text, objects as their entries in order. */
  datatype Json =
    | Null
    | Bool(b: bool)
    | Number(text: string)
    | Str(s: string)
    | Arr(items: seq<Json>)
    | Obj(entries: seq<(string, Json)>)

  const REDACTED := Str("<redacted>")

  function Redact(v: Json, secret: string -> bool): Json
    decreases v
  {
    match v
    case Arr(items) => Arr(seq(|items|, i requires 0 <= i < |items| => Redact(items[i], secret)))
    case Obj(entries) =>
      Obj(seq(|entries|, i requires 0 <= i < |entries| => (entries[i].0, RedactField(entries[i], secret))))
    case _ => v
  }

  function RedactField(entry: (string, Json), secret: string -> bool): Json
    decreases entry, 0
  {
    if secret(entry.0) then REDACTED else Redact(entry.1, secret)
  }

  predicate ContainsSecret(v: Json, secret: string -> bool)
    decreases v
  {
    match v
    case Arr(items) => exists i :: 0 <= i < |items| && ContainsSecret(items[i], secret)
    case Obj(entries) =>
      exists i :: 0 <= i < |entries| && (secret(entries[i].0) || ContainsSecret(entries[i].1, secret))
    case _ => false
  }

  /** The traversal with its accumulators, as both modules write it. */
  method RedactValue(v: Json, secret: string -> bool) returns (r: Json)
    ensures r == Redact(v, secret)
    decreases v
  {
    match v {
      case Arr(items) =>
        var out: seq<Json> := [];
        for i := 0 to |items|
          invariant |out| == i && forall k :: 0 <= k < i ==> out[k] == Redact(items[k], secret)
        {
          var item := RedactValue(items[i], secret);
          out := out + [item];
        }
        r := Arr(out);
      case Obj(entries) =>
        var out: seq<(string, Json)> := [];
        for i := 0 to |entries|
          invariant |out| == i
          invariant forall k :: 0 <= k < i ==> out[k] == (entries[k].0, RedactField(entries[k], secret))
        {
          var (key, entry) := entries[i];
          if secret(key) {
            out := out + [(key, REDACTED)];
          } else {
            var value := RedactValue(entry, secret);
            out := out + [(key, value)];
          }
        }
        r := Obj(out);
      case _ => r := v;
    }
  }

  // ---------------------------------------------------------------------------------------
  // What redaction does at every path
  // ---------------------------------------------------------------------------------------

  datatype Step = Item(index: nat) | Field(key: string)

  function Find(entries: seq<(string, Json)>, key: string): Option<Json> {
    if entries == [] then None
    else if entries[0].0 == key then Some(entries[0].1)
    else Find(entries[1..], key)
  }

  function Child(v: Json, step: Step): Option<Json> {
    match (v, step)
    case (Arr(items), Item(index)) => if index < |items| then Some(items[index]) else None
    case (Obj(entries), Field(key)) => Find(entries, key)
    case _ => None
  }

  function At(v: Json, path: seq<Step>): Option<Json>
    decreases |path|
  {
    if path == [] then Some(v)
    else
      match Child(v, path[0])
      case None => None
      case Some(child) => At(child, path[1..])
  }

  predicate IsSecretStep(step: Step, secret: string -> bool) {
    step.Field? && secret(step.key)
  }

  /** Same constructor; same leaf, same length, or same keys in the same order. */
  predicate SameHead(a: Json, b: Json) {
    match (a, b)
    case (Arr(xs), Arr(ys)) => |xs| == |ys|
    case (Obj(xs), Obj(ys)) => |xs| == |ys| && forall i :: 0 <= i < |xs| ==> xs[i].0 == ys[i].0
    case _ => a == b
  }

  lemma {:induction false} FindRedacted(entries: seq<(string, Json)>, key: string, secret: string -> bool)
    ensures var found := Find(entries, key);
            Find(Redact(Obj(entries), secret).entries, key)
            == if found.None? then None else Some(RedactField((key, found.value), secret))
  {
    if entries != [] && entries[0].0 != key {
      FindRedacted(entries[1..], key, secret);
      assert Redact(Obj(entries), secret).entries[1..] == Redact(Obj(entries[1..]), secret).entries;
    }
  }

  /** Reaching a path without secret keys: the redacted value of what was there, head unchanged. */
  lemma {:induction false} PublicPathKept(v: Json, path: seq<Step>, secret: string -> bool)
    requires forall i :: 0 <= i < |path| ==> !IsSecretStep(path[i], secret)
    ensures At(Redact(v, secret), path).Some? == At(v, path).Some?
    ensures At(v, path).Some? ==>
              && At(Redact(v, secret), path).value == Redact(At(v, path).value, secret)
              && SameHead(At(v, path).value, At(Redact(v, secret), path).value)
    decreases |path|
  {
    if path != [] {
      if v.Obj? && path[0].Field? {
        FindRedacted(v.entries, path[0].key, secret);
      }
      var child := Child(v, path[0]);
      if child.Some? {
        PublicPathKept(child.value, path[1..], secret);
      }
    }
  }

  /** At the outermost secret key of any path there is the marker, and nothing beneath it. */
  lemma {:induction false} SecretPathRedacted(v: Json, path: seq<Step>, key: string, beneath: seq<Step>, secret: string -> bool)
    requires forall i :: 0 <= i < |path| ==> !IsSecretStep(path[i], secret)
    requires secret(key)
    ensures At(Redact(v, secret), path + [Field(key)] + beneath)
            == if At(v, path + [Field(key)]).Some? && beneath == [] then Some(Str("<redacted>")) else None
    decreases |path|
  {
    var full := path + [Field(key)] + beneath;
    if path == [] {
      assert full[0] == Field(key) && full[1..] == beneath;
      assert (path + [Field(key)])[1..] == [];
      if v.Obj? {
        FindRedacted(v.entries, key, secret);
      }
    } else {
      assert full[1..] == path[1..] + [Field(key)] + beneath;
      assert (path + [Field(key)])[1..] == path[1..] + [Field(key)];
      if v.Obj? && path[0].Field? {
        FindRedacted(v.entries, path[0].key, secret);
      }
      var child := Child(v, path[0]);
      if child.Some? {
        SecretPathRedacted(child.value, path[1..], key, beneath, secret);
      }
    }
  }

  // ---------------------------------------------------------------------------------------
  // Laws of the whole value
  // ---------------------------------------------------------------------------------------

  /** A value without secret keys is left exactly as it is. */
  lemma {:induction false} IdentityWithoutSecrets(v: Json, secret: string -> bool)
    requires !ContainsSecret(v, secret)
    ensures Redact(v, secret) == v
    decreases v
  {
    match v
    case Arr(items) =>
      forall i | 0 <= i < |items| ensures Redact(items[i], secret) == items[i] {
        IdentityWithoutSecrets(items[i], secret);
      }
    case Obj(entries) =>
      forall i | 0 <= i < |entries| ensures RedactField(entries[i], secret) == entries[i].1 {
        IdentityWithoutSecrets(entries[i].1, secret);
      }
    case _ =>
  }

  /** Redacting with more keys after redacting with fewer is redacting with more. */
  lemma {:induction false} StrongerAbsorbs(v: Json, weak: string -> bool, strong: string -> bool)
    requires forall key :: weak(key) ==> strong(key)
    ensures Redact(Redact(v, weak), strong) == Redact(v, strong)
    decreases v
  {
    match v
    case Arr(items) =>
      forall i | 0 <= i < |items| ensures Redact(Redact(items[i], weak), strong) == Redact(items[i], strong) {
        StrongerAbsorbs(items[i], weak, strong);
      }
    case Obj(entries) =>
      forall i | 0 <= i < |entries|
        ensures RedactField((entries[i].0, RedactField(entries[i], weak)), strong) == RedactField(entries[i], strong)
      {
        StrongerAbsorbs(entries[i].1, weak, strong);
      }
    case _ =>
  }

  lemma {:induction false} RedactIdempotent(v: Json, secret: string -> bool)
    ensures Redact(Redact(v, secret), secret) == Redact(v, secret)
  {
    StrongerAbsorbs(v, secret, secret);
  }

  /** The values differ, if at all, only beneath secret keys. */
  predicate EqualOutside(a: Json, b: Json, secret: string -> bool)
    decreases a
  {
    match (a, b)
    case (Arr(xs), Arr(ys)) =>
      |xs| == |ys| && forall i :: 0 <= i < |xs| ==> EqualOutside(xs[i], ys[i], secret)
    case (Obj(xs), Obj(ys)) =>
      |xs| == |ys|
      && forall i :: 0 <= i < |xs| ==>
                       xs[i].0 == ys[i].0 && (secret(xs[i].0) || EqualOutside(xs[i].1, ys[i].1, secret))
    case _ => a == b
  }

  /** What is displayed reveals everything outside secret keys, and nothing beneath them. */
  lemma {:induction false} RedactHidesExactlySecrets(a: Json, b: Json, secret: string -> bool)
    ensures Redact(a, secret) == Redact(b, secret) <==> EqualOutside(a, b, secret)
    decreases a
  {
    var ra, rb := Redact(a, secret), Redact(b, secret);
    match (a, b)
    case (Arr(xs), Arr(ys)) =>
      forall i | 0 <= i < |xs| && i < |ys|
        ensures Redact(xs[i], secret) == Redact(ys[i], secret) <==> EqualOutside(xs[i], ys[i], secret)
      {
        RedactHidesExactlySecrets(xs[i], ys[i], secret);
      }
      assert |ra.items| == |xs| && |rb.items| == |ys|;
      if ra == rb {
        forall i | 0 <= i < |xs| && i < |ys| ensures Redact(xs[i], secret) == Redact(ys[i], secret) {
          assert ra.items[i] == rb.items[i];
        }
      }
    case (Obj(xs), Obj(ys)) =>
      forall i | 0 <= i < |xs| && i < |ys|
        ensures Redact(xs[i].1, secret) == Redact(ys[i].1, secret) <==> EqualOutside(xs[i].1, ys[i].1, secret)
      {
        RedactHidesExactlySecrets(xs[i].1, ys[i].1, secret);
      }
      assert |ra.entries| == |xs| && |rb.entries| == |ys|;
      if ra == rb {
        forall i | 0 <= i < |xs| && i < |ys|
          ensures xs[i].0 == ys[i].0 && RedactField(xs[i], secret) == RedactField(ys[i], secret)
        {
          assert ra.entries[i] == rb.entries[i];
        }
      }
    case _ =>
  }

  /** The leak badge is still right after redaction: keys are kept. */
  lemma {:induction false} BadgeSurvivesRedaction(v: Json, secret: string -> bool)
    ensures ContainsSecret(Redact(v, secret), secret) == ContainsSecret(v, secret)
    decreases v
  {
    var r := Redact(v, secret);
    match v
    case Arr(items) =>
      forall i | 0 <= i < |items| ensures ContainsSecret(r.items[i], secret) == ContainsSecret(items[i], secret) {
        BadgeSurvivesRedaction(items[i], secret);
      }
    case Obj(entries) =>
      forall i | 0 <= i < |entries|
        ensures (secret(r.entries[i].0) || ContainsSecret(r.entries[i].1, secret))
                == (secret(entries[i].0) || ContainsSecret(entries[i].1, secret))
      {
        assert r.entries[i] == (entries[i].0, RedactField(entries[i], secret));
        BadgeSurvivesRedaction(entries[i].1, secret);
      }
    case _ =>
  }

  /** A JavaScript object never holds the same key twice, at any depth. */
  predicate DistinctKeys(v: Json)
    decreases v
  {
    match v
    case Arr(items) => forall i :: 0 <= i < |items| ==> DistinctKeys(items[i])
    case Obj(entries) =>
      && (forall i, j :: 0 <= i < j < |entries| ==> entries[i].0 != entries[j].0)
      && (forall i :: 0 <= i < |entries| ==> DistinctKeys(entries[i].1))
    case _ => true
  }

  lemma {:induction false} FindIsEntry(entries: seq<(string, Json)>, key: string) returns (i: nat)
    requires Find(entries, key).Some?
    ensures i < |entries| && entries[i] == (key, Find(entries, key).value)
  {
    i := 0;
    if entries[0].0 != key {
      i := FindIsEntry(entries[1..], key);
      i := i + 1;
    }
  }

  /** A clean badge is a proof: no path of the value reaches a secret key. */
  lemma {:induction false} CleanBadgeIsSound(v: Json, path: seq<Step>, key: string, secret: string -> bool)
    requires secret(key) && At(v, path + [Field(key)]).Some?
    ensures ContainsSecret(v, secret)
    decreases |path|
  {
    var full := path + [Field(key)];
    var child := Child(v, full[0]);
    if v.Obj? {
      var i := FindIsEntry(v.entries, full[0].key);
    }
    if path != [] {
      assert full[1..] == path[1..] + [Field(key)];
      CleanBadgeIsSound(child.value, path[1..], key, secret);
    }
  }

  /** And a raised badge has a path to show for it. */
  lemma {:induction false} RaisedBadgeHasPath(v: Json, secret: string -> bool) returns (path: seq<Step>, key: string)
    requires DistinctKeys(v) && ContainsSecret(v, secret)
    ensures secret(key) && At(v, path + [Field(key)]).Some?
    decreases v
  {
    match v
    case Arr(items) =>
      var i :| 0 <= i < |items| && ContainsSecret(items[i], secret);
      path, key := RaisedBadgeHasPath(items[i], secret);
      path := [Item(i)] + path;
      assert (path + [Field(key)])[1..] == path[1..] + [Field(key)];
    case Obj(entries) =>
      var i :| 0 <= i < |entries| && (secret(entries[i].0) || ContainsSecret(entries[i].1, secret));
      FindFirst(entries, i);
      if secret(entries[i].0) {
        path, key := [], entries[i].0;
        assert ([] + [Field(key)])[1..] == [];
      } else {
        path, key := RaisedBadgeHasPath(entries[i].1, secret);
        path := [Field(entries[i].0)] + path;
        assert (path + [Field(key)])[1..] == path[1..] + [Field(key)];
      }
  }

  lemma {:induction false} FindFirst(entries: seq<(string, Json)>, i: nat)
    requires i < |entries| && forall j :: 0 <= j < i ==> entries[j].0 != entries[i].0
    ensures Find(entries, entries[i].0) == Some(entries[i].1)
  {
    if i > 0 {
      FindFirst(entries[1..], i - 1);
    }
  }

  /** The drawer redacts only when the badge says so; what it shows is redacted either way. */
  method ShownDetails(details: Json) returns (leaked: bool, shown: Json)
    ensures leaked == ContainsSecret(details, SecretKeyRe)
    ensures shown == Redact(details, SecretKeyRe)
  {
    leaked, shown := ContainsSecret(details, SecretKeyRe), details;
    if leaked {
      shown := RedactValue(details, SecretKeyRe);
    } else {
      IdentityWithoutSecrets(details, SecretKeyRe);
    }
  }

  // ---------------------------------------------------------------------------------------
  // The two key recognisers
  // ---------------------------------------------------------------------------------------

  /** `word` (lower case) occurs at `i`, ignoring ASCII case. */
  predicate OccursAt(key: string, word: string, i: nat) {
    i + |word| <= |key| && forall k :: 0 <= k < |word| ==> ToLower(key[i + k]) == word[k]
  }

  predicate Occurs(key: string, word: string) {
    exists i :: 0 <= i <= |key| && OccursAt(key, word, i)
  }

  predicate IsWordChar(c: char) {
    'a' <= c <= 'z' || 'A' <= c <= 'Z' || '0' <= c <= '9' || c == '_'
  }

  /** `code` stands alone at `i`. */
  predicate CodeAt(key: string, i: nat) {
    && i <= |key| && OccursAt(key, "code", i)
    && (i == 0 || !IsWordChar(key[i - 1])) && (i + 4 == |key| || !IsWordChar(key[i + 4]))
  }

  /** `\bcode\b`, ignoring case. */
  predicate CodeAsWord(key: string) {
    exists i :: 0 <= i <= |key| && CodeAt(key, i)
  }

  predicate SecretKeyRe(key: string) {
    || Occurs(key, "token") || Occurs(key, "secret") || Occurs(key, "password") || Occurs(key, "otp")
    || Occurs(key, "recovery") || Occurs(key, "ticket") || CodeAsWord(key)
  }

  const SECRET_KEYS: set<string> :=
    {"accessToken", "refreshToken", "mfaTempToken", "password", "secret", "recoveryCodes", "otp", "token", "ticket"}

  predicate InSecretKeys(key: string) {
    key in SECRET_KEYS
  }

  /** The key is some text, the word in any casing, and some text. */
  ghost predicate HasWord(key: string, before: string, word: string, after: string, spelled: string) {
    key == before + spelled + after && EqIgnoreAsciiCase(spelled, word)
  }

  predicate IsLower(word: string) {
    forall k :: 0 <= k < |word| ==> ToLower(word[k]) == word[k]
  }

  lemma {:induction false} OccursAtIs(key: string, word: string, i: nat)
    requires IsLower(word)
    ensures OccursAt(key, word, i) <==> i + |word| <= |key| && EqIgnoreAsciiCase(key[i..i + |word|], word)
  {
  }

  /** A word occurs in a key exactly when the key can be cut around it. */
  lemma {:induction false} OccursIsInfix(key: string, word: string)
    requires IsLower(word)
    ensures Occurs(key, word)
            <==> exists before: string, after: string, spelled: string :: HasWord(key, before, word, after, spelled)
  {
    if i: nat :| i <= |key| && OccursAt(key, word, i) {
      OccursAtIs(key, word, i);
      assert key == key[..i] + key[i..i + |word|] + key[i + |word|..];
      assert HasWord(key, key[..i], word, key[i + |word|..], key[i..i + |word|]);
    }
    if before: string, after: string, spelled: string :| HasWord(key, before, word, after, spelled) {
      assert key[|before|..|before| + |word|] == spelled;
      OccursAtIs(key, word, |before|);
    }
  }

  /** The code of a digit, a letter or an underscore. */
  predicate WordCode(code: int) {
    48 <= code <= 57 || 65 <= code <= 90 || code == 95 || 97 <= code <= 122
  }

  /** The text before and after a whole word ends and starts with something else than a word character. */
  ghost predicate StandsAlone(before: string, after: string) {
    (before == "" || !WordCode(before[|before| - 1] as int)) && (after == "" || !WordCode(after[0] as int))
  }

  lemma {:induction false} WordCodeIs(c: char)
    ensures WordCode(c as int) <==> IsWordChar(c)
  {
  }

  lemma {:induction false} CodeAtStands(key: string, i: nat)
    requires CodeAt(key, i)
    ensures HasWord(key, key[..i], "code", key[i + 4..], key[i..i + 4]) && StandsAlone(key[..i], key[i + 4..])
  {
    OccursAtIs(key, "code", i);
    assert key == key[..i] + key[i..i + 4] + key[i + 4..];
    if i > 0 {
      WordCodeIs(key[i - 1]);
    }
    if i + 4 < |key| {
      WordCodeIs(key[i + 4]);
    }
  }

  lemma {:induction false} StandingCodeAt(key: string, before: string, after: string, spelled: string)
    requires HasWord(key, before, "code", after, spelled) && StandsAlone(before, after)
    ensures CodeAt(key, |before|)
  {
    var i := |before|;
    assert key[i..i + 4] == spelled;
    OccursAtIs(key, "code", i);
    if i > 0 {
      WordCodeIs(before[i - 1]);
    }
    if after != "" {
      assert key[i + 4] == after[0];
      WordCodeIs(after[0]);
    }
  }

  /** `code` counts only as a whole word: `code` and `auth-Code` do, `zipcode` and `code_verifier` do not. */
  lemma {:induction false} CodeIsWholeWord(key: string)
    ensures CodeAsWord(key)
            <==> exists before: string, after: string, spelled: string ::
                   HasWord(key, before, "code", after, spelled) && StandsAlone(before, after)
  {
    if CodeAsWord(key) {
      var i: nat :| CodeAt(key, i);
      CodeAtStands(key, i);
    }
    if before: string, after: string, spelled: string :|
      HasWord(key, before, "code", after, spelled) && StandsAlone(before, after) {
      StandingCodeAt(key, before, after, spelled);
    }
  }

  /** The secret-shaped keys: one of six words anywhere, or `code` as a whole word, in any casing. */
  lemma {:induction false} SecretKeysAre(key: string)
    ensures SecretKeyRe(key)
            <==> (exists word: string, before: string, after: string, spelled: string ::
                    word in {"token", "secret", "password", "otp", "recovery", "ticket"}
                    && HasWord(key, before, word, after, spelled))
                 || (exists before: string, after: string, spelled: string ::
                       HasWord(key, before, "code", after, spelled) && StandsAlone(before, after))
  {
    CodeIsWholeWord(key);
    forall word: string | word in {"token", "secret", "password", "otp", "recovery", "ticket"}
      ensures Occurs(key, word)
              <==> exists before: string, after: string, spelled: string :: HasWord(key, before, word, after, spelled)
    {
      OccursIsInfix(key, word);
    }
  }

  lemma {:induction false} TokenKeysMatch()
    ensures Occurs("accessToken", "token") && Occurs("refreshToken", "token")
    ensures Occurs("mfaTempToken", "token") && Occurs("token", "token")
  {
    assert OccursAt("accessToken", "token", 6);
    assert OccursAt("refreshToken", "token", 7);
    assert OccursAt("mfaTempToken", "token", 7);
    assert OccursAt("token", "token", 0);
  }

  lemma {:induction false} OtherKeysMatch()
    ensures Occurs("password", "password") && Occurs("secret", "secret") && Occurs("recoveryCodes", "recovery")
    ensures Occurs("otp", "otp") && Occurs("ticket", "ticket")
  {
    assert OccursAt("password", "password", 0);
    assert OccursAt("secret", "secret", 0);
    assert OccursAt("recoveryCodes", "recovery", 0);
    assert OccursAt("otp", "otp", 0);
    assert OccursAt("ticket", "ticket", 0);
  }

  /** Every key the playground strips is one the drawer recognises. */
  lemma {:induction false} SetKeysMatchPattern(key: string)
    requires InSecretKeys(key)
    ensures SecretKeyRe(key)
  {
    TokenKeysMatch();
    OtherKeysMatch();
  }

  /** The playground strips exactly nine keys, in their exact spelling. */
  lemma {:induction false} PlaygroundStrips(key: string, value: Json)
    ensures var shown := Redact(Obj([(key, value)]), InSecretKeys);
            && shown.Obj? && |shown.entries| == 1 && shown.entries[0].0 == key
            && shown.entries[0].1
               == if key in {"accessToken", "refreshToken", "mfaTempToken", "password", "secret", "recoveryCodes", "otp",
                             "token", "ticket"}
                  then Str("<redacted>") else Redact(value, InSecretKeys)
  {
  }

  /** A playground response shown in the drawer loses nothing more than it would there alone. */
  lemma {:induction false} PlaygroundThenDrawer(v: Json)
    ensures Redact(Redact(v, InSecretKeys), SecretKeyRe) == Redact(v, SecretKeyRe)
  {
    forall key ensures InSecretKeys(key) ==> SecretKeyRe(key) {
      if InSecretKeys(key) {
        SetKeysMatchPattern(key);
      }
    }
    StrongerAbsorbs(v, InSecretKeys, SecretKeyRe);
  }
}
