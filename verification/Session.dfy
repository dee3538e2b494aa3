/** lumen/bot/session_store.py: per-user session objects in Redis, from which secrets are removed or
    sealed before anything is written. */
module Session {
  import opened Prelude

  /** Text as it can appear in a stored value: plain, or sealed by `seal_token`. */
  datatype Text = Plain(chars: string) | Sealed(inner: Text)

  /** Values of session objects: what JSON has, and the tuples that handlers may put there. */
  datatype Json =
    | Null
    | Flag(b: bool)
    | Number(n: int)
    | Str(text: Text)
    | List(items: seq<Json>)
    | Tuple(members: seq<Json>)
    | Dict(fields: map<string, Json>)

  type Fields = map<string, Json>

  const SECRET_KEYS: set<string> := {
    "bot_token", "token", "telegram_bot_token", "api_token", "TELEGRAM_BOT_TOKEN", "BOT_TOKEN", "TOKEN",
    "github_token", "gh_token", "password", "secret", "api_key"}

  const DROPPED_KEYS: set<string> := {"bot_token", "token", "telegram_bot_token", "api_token"}

  const DURABLE_KEYS: set<string> := {
    "pending_run", "pending_live_run", "pending_deploy", "pending_host", "pending_clone_auth",
    "pending_create_repo", "pending_git_push", "pending_github_connection", "github_connection",
    "pending_repo_env", "active_repo", "last_project_path", "active_bot_path", "last_clone_url",
    "repo_sections", "repo_sections_rich", "pending_github_prompt_mid", "chat_history",
    "current_conversation_id", "pending_conversation_action", "last_bot_request",
    "translated_preferred_keys", "translated_source", "force_generate_once", "engine_ui_await_generate",
    "engine_ui", "lang", "lumen_welcome_shown", "lumen_welcome_msg_id", "multi_agent_state_id",
    "multi_agent_pending", "pro_plan"}

  predicate EndsWith(s: string, suffix: string) {
    |s| >= |suffix| && s[|s| - |suffix|..] == suffix
  }

  predicate IsSecret(k: string) {
    var kl := Lower(k);
    || k in SECRET_KEYS
    || kl in SECRET_KEYS
    || EndsWith(kl, "_token")
    || EndsWith(kl, "_secret")
    || EndsWith(kl, "_password")
    || kl in {"token", "password", "api_key", "authorization"}
  }

  predicate IsDropped(k: string) {
    Lower(k) in DROPPED_KEYS
  }

  /** `v.strip()` is non-empty; a sealed text always has its tag. */
  predicate NotBlank(t: Text) {
    t.Sealed? || Strip(t.chars) != ""
  }

  /** `seal_token` strips what it is given. */
  function Seal(t: Text): Text {
    Sealed(if t.Plain? then Plain(Strip(t.chars)) else t)
  }

  /** Which fields of an object survive: not a bot token, and a secret only as a sealable string. */
  predicate Survives(sealing: bool, k: string, v: Json) {
    IsSecret(k) ==> !IsDropped(k) && sealing && v.Str? && NotBlank(v.text)
  }

  /** `_redact_secrets`; `sealing` says whether sealing works in this process. */
  function Redact(sealing: bool, j: Json): Json
    decreases j
  {
    match j
    case Dict(fields) =>
      Dict(map k | k in fields && Survives(sealing, k, fields[k]) ::
        if IsSecret(k) then Str(Seal(fields[k].text)) else Redact(sealing, fields[k]))
    case List(items) => List(RedactAll(sealing, items))
    case _ => j
  }

  function RedactAll(sealing: bool, items: seq<Json>): seq<Json>
    decreases items
  {
    if items == [] then [] else [Redact(sealing, items[0])] + RedactAll(sealing, items[1..])
  }

  /** What `json.dumps` makes of a value, as it is loaded again: tuples have become lists. */
  function Dumped(j: Json): Json
    decreases j
  {
    match j
    case Dict(fields) => Dict(map k | k in fields :: Dumped(fields[k]))
    case List(items) => List(DumpedAll(items))
    case Tuple(members) => List(DumpedAll(members))
    case _ => j
  }

  function DumpedAll(items: seq<Json>): seq<Json>
    decreases items
  {
    if items == [] then [] else [Dumped(items[0])] + DumpedAll(items[1..])
  }

  /** The form in which a value is stored: redacted, then dumped. */
  function Written(sealing: bool, j: Json): Json {
    Dumped(Redact(sealing, j))
  }

  /** What becomes of one field. */
  function FieldForm(sealing: bool, k: string, v: Json): Option<Json> {
    if !Survives(sealing, k, v) then None
    else Some(if IsSecret(k) then Str(Seal(v.text)) else Written(sealing, v))
  }

  /** `_filter_durable`, and the dump of what it keeps. */
  function FilterDurable(sealing: bool, data: Fields): Fields {
    var cleaned := Written(sealing, Dict(data)).fields;
    map k | k in DURABLE_KEYS && k in cleaned && cleaned[k] != Null :: cleaned[k]
  }

  // ------------------------------------------------------------------ redaction

  /** At every depth: no bot-token-named key, and every other secret-named key holds a sealed text. */
  predicate Clean(j: Json) {
    match j
    case Dict(fields) =>
      forall k | k in fields ::
        if IsSecret(k) then !IsDropped(k) && fields[k].Str? && fields[k].text.Sealed? else Clean(fields[k])
    case List(items) => forall i | 0 <= i < |items| :: Clean(items[i])
    case Tuple(members) => forall i | 0 <= i < |members| :: Clean(members[i])
    case _ => true
  }

  /** Redaction does not look into tuples: what they hold, outside fields that are redacted away, is clean
      by itself. */
  predicate Tidy(j: Json) {
    match j
    case Dict(fields) => forall k | k in fields :: !IsSecret(k) ==> Tidy(fields[k])
    case List(items) => forall i | 0 <= i < |items| :: Tidy(items[i])
    case Tuple(members) => forall i | 0 <= i < |members| :: Clean(members[i])
    case _ => true
  }

  /** At every depth: no secret-named key, and no tuple. */
  predicate Storable(j: Json) {
    match j
    case Dict(fields) => forall k | k in fields :: !IsSecret(k) && Storable(fields[k])
    case List(items) => forall i | 0 <= i < |items| :: Storable(items[i])
    case Tuple(_) => false
    case _ => true
  }

  lemma {:induction false} RedactAllPointwise(sealing: bool, items: seq<Json>)
    ensures |RedactAll(sealing, items)| == |items|
    ensures forall i | 0 <= i < |items| :: RedactAll(sealing, items)[i] == Redact(sealing, items[i])
  {
    if items != [] {
      RedactAllPointwise(sealing, items[1..]);
    }
  }

  lemma {:induction false} DumpedAllPointwise(items: seq<Json>)
    ensures |DumpedAll(items)| == |items|
    ensures forall i | 0 <= i < |items| :: DumpedAll(items)[i] == Dumped(items[i])
  {
    if items != [] {
      DumpedAllPointwise(items[1..]);
    }
  }

  lemma {:induction false} DumpedIsCleanIff(j: Json)
    ensures Clean(Dumped(j)) <==> Clean(j)
  {
    match j
    case Dict(fields) =>
      forall k | k in fields {
        DumpedIsCleanIff(fields[k]);
      }
      assert forall k | k in fields :: Dumped(j).fields[k] == Dumped(fields[k]);
    case List(items) =>
      DumpedAllPointwise(items);
      forall i | 0 <= i < |items| {
        DumpedIsCleanIff(items[i]);
      }
      AllCleanIff(items, DumpedAll(items));
    case Tuple(members) =>
      DumpedAllPointwise(members);
      forall i | 0 <= i < |members| {
        DumpedIsCleanIff(members[i]);
      }
      AllCleanIff(members, DumpedAll(members));
    case _ =>
  }

  lemma AllCleanIff(a: seq<Json>, b: seq<Json>)
    requires |a| == |b| && forall i | 0 <= i < |a| :: Clean(a[i]) <==> Clean(b[i])
    ensures (forall i | 0 <= i < |a| :: Clean(a[i])) <==> (forall i | 0 <= i < |b| :: Clean(b[i]))
  {
    hide Clean;
  }

  lemma {:induction false} RedactIsCleanIff(sealing: bool, j: Json)
    ensures Clean(Redact(sealing, j)) <==> Tidy(j)
  {
    match j
    case Dict(fields) =>
      var out := Redact(sealing, j).fields;
      forall k | k in fields && !IsSecret(k) ensures k in out && (Clean(out[k]) <==> Tidy(fields[k])) {
        RedactIsCleanIff(sealing, fields[k]);
      }
    case List(items) =>
      RedactAllPointwise(sealing, items);
      forall i | 0 <= i < |items| ensures Clean(RedactAll(sealing, items)[i]) <==> Tidy(items[i]) {
        RedactIsCleanIff(sealing, items[i]);
      }
    case _ =>
  }

  /** Nothing secret is written in the clear, however deep it was, if and only if no tuple holds any. */
  lemma WrittenIsCleanIff(sealing: bool, j: Json)
    ensures Clean(Written(sealing, j)) <==> Tidy(j)
  {
    RedactIsCleanIff(sealing, j);
    DumpedIsCleanIff(Redact(sealing, j));
  }

  lemma {:induction false} SealChanges(t: Text)
    ensures Seal(t) != t
    ensures t.Sealed? ==> Seal(t) == Sealed(t)
    decreases t
  {
    if t.Sealed? {
      SealedDiffers(t);
    }
  }

  lemma {:induction false} SealedDiffers(t: Text)
    ensures Sealed(t) != t
  {
    if t.Sealed? {
      SealedDiffers(t.inner);
    }
  }

  lemma {:induction false} WrittenAll(sealing: bool, items: seq<Json>)
    ensures Written(sealing, List(items)).List? && |Written(sealing, List(items)).items| == |items|
    ensures forall i | 0 <= i < |items| :: Written(sealing, List(items)).items[i] == Written(sealing, items[i])
  {
    RedactAllPointwise(sealing, items);
    DumpedAllPointwise(RedactAll(sealing, items));
  }

  /** What is written for one field of an object. */
  lemma WrittenField(sealing: bool, fields: Fields, k: string)
    ensures Written(sealing, Dict(fields)).Dict?
    ensures var out := Written(sealing, Dict(fields)).fields;
            && (k in out <==> k in fields && FieldForm(sealing, k, fields[k]).Some?)
            && (k in out ==> FieldForm(sealing, k, fields[k]) == Some(out[k]))
  {
    hide IsSecret, IsDropped, NotBlank, Seal;
    var cleaned := Redact(sealing, Dict(fields)).fields;
    if k in cleaned {
      assert IsSecret(k) ==> cleaned[k] == Str(Seal(fields[k].text)) && Dumped(cleaned[k]) == cleaned[k];
      assert !IsSecret(k) ==> cleaned[k] == Redact(sealing, fields[k]);
    }
  }

  /** A value is stored as it is exactly when no secret-named key and no tuple occurs in it at any depth. */
  lemma {:induction false} WrittenAsIsIff(sealing: bool, j: Json)
    ensures Written(sealing, j) == j <==> Storable(j)
  {
    match j
    case Dict(fields) =>
      var out := Written(sealing, j).fields;
      forall k
        ensures k in out ==> k in fields
        ensures k in fields && !IsSecret(k) ==> k in out && (out[k] == fields[k] <==> Storable(fields[k]))
        ensures k in fields && IsSecret(k) ==> k !in out || out[k] != fields[k]
      {
        WrittenField(sealing, fields, k);
        if k in fields {
          if IsSecret(k) {
            if k in out {
              SealChanges(fields[k].text);
            }
          } else {
            WrittenAsIsIff(sealing, fields[k]);
          }
        }
      }
      WrittenField(sealing, fields, "");
      hide Written;
      if Storable(j) {
        assert out.Keys == fields.Keys;
        assert out == fields;
      } else {
        var k :| k in fields && (IsSecret(k) || !Storable(fields[k]));
        assert k !in out || out[k] != fields[k];
      }
    case List(items) =>
      WrittenAll(sealing, items);
      forall i | 0 <= i < |items| {
        WrittenAsIsIff(sealing, items[i]);
      }
      hide Written;
      if Storable(j) {
        assert Written(sealing, j).items == items;
      } else {
        var i :| 0 <= i < |items| && !Storable(items[i]);
        assert Written(sealing, j).items[i] != items[i];
      }
    case _ =>
  }

  function Layers(n: nat, t: Text): Text {
    if n == 0 then t else Sealed(Layers(n - 1, t))
  }

  /** The value at the end of `path`, read through nested objects, is the secret text t: every key on the
      way is an ordinary one, the last names a secret that is sealed. */
  predicate Reaches(j: Json, path: seq<string>, t: Text)
    decreases |path|
  {
    && j.Dict? && path != [] && path[0] in j.fields
    && if |path| == 1 then IsSecret(path[0]) && !IsDropped(path[0]) && j.fields[path[0]] == Str(t)
       else !IsSecret(path[0]) && Reaches(j.fields[path[0]], path[1..], t)
  }

  lemma {:induction false} WrittenAddsALayer(j: Json, path: seq<string>, t: Text)
    requires Reaches(j, path, t) && t.Sealed?
    ensures Reaches(Written(true, j), path, Sealed(t))
    decreases |path|
  {
    hide IsSecret, IsDropped, Redact, Dumped;
    WrittenField(true, j.fields, path[0]);
    hide Written;
    if |path| > 1 {
      WrittenAddsALayer(j.fields[path[0]], path[1..], t);
    }
  }

  // ------------------------------------------------------------------ the store

  type Sessions = map<int, Fields>

  function Loaded(s: Sessions, uid: int): Fields {
    if uid in s then s[uid] else map[]
  }

  function AfterSave(s: Sessions, uid: int, data: Fields, sealing: bool): Sessions {
    s[uid := Loaded(s, uid) + FilterDurable(sealing, data)]
  }

  function Hydrated(s: Sessions, uid: int, userData: Fields): Fields {
    userData + (map k | k in Loaded(s, uid) && k in DURABLE_KEYS :: Loaded(s, uid)[k])
  }

  /** The existing fields overwritten by the incoming ones, those still to do left out. */
  function Overwritten(existing: Fields, incoming: Fields, todo: set<string>): Fields {
    existing + (incoming - todo)
  }

  lemma MergeAll(existing: Fields, incoming: Fields)
    ensures Overwritten(existing, incoming, incoming.Keys) == existing
    ensures Overwritten(existing, incoming, {}) == existing + incoming
  {
    assert incoming - incoming.Keys == map[] && incoming - {} == incoming;
  }

  lemma MergeOne(existing: Fields, incoming: Fields, todo: set<string>, k: string)
    requires k in todo && todo <= incoming.Keys
    ensures Overwritten(existing, incoming, todo)[k := incoming[k]] == Overwritten(existing, incoming, todo - {k})
  {
    assert incoming - (todo - {k}) == (incoming - todo)[k := incoming[k]];
  }

  /** The merge loop of `save`: every incoming field overwrites, no other field is touched. */
  method Merge(existing: Fields, incoming: Fields) returns (merged: Fields)
    ensures merged == existing + incoming
  {
    hide Overwritten;
    merged := existing;
    var todo := incoming.Keys;
    MergeAll(existing, incoming);
    while todo != {}
      invariant todo <= incoming.Keys
      invariant merged == Overwritten(existing, incoming, todo)
      decreases |todo|
    {
      var k :| k in todo;
      MergeOne(existing, incoming, todo, k);
      merged := merged[k := incoming[k]];
      todo := todo - {k};
    }
  }

  class SessionStore {
    var data: Sessions

    constructor ()
      ensures data == map[]
    {
      data := map[];
    }

    function Load(uid: int): Fields
      reads this
    {
      if uid in data then data[uid] else map[]
    }

    method Save(uid: int, payload: Fields, sealing: bool)
      modifies this
      ensures data == AfterSave(old(data), uid, payload, sealing)
    {
      var incoming := FilterDurable(sealing, payload);
      var merged := Merge(Load(uid), incoming);
      data := data[uid := merged];
    }

    /** `clear`; an eviction or the end of the TTL has the same effect. */
    method Clear(uid: int)
      modifies this
      ensures data == old(data) - {uid}
    {
      data := data - {uid};
    }

    method Hydrate(uid: int, userData: Fields) returns (hydrated: Fields)
      ensures hydrated == Hydrated(data, uid, userData)
    {
      var saved := Load(uid);
      hydrated := userData;
      var todo := saved.Keys;
      while todo != {}
        invariant todo <= saved.Keys
        invariant hydrated == userData + (map k | k in saved && k in DURABLE_KEYS && k !in todo :: saved[k])
        decreases |todo|
      {
        var k :| k in todo;
        if k in DURABLE_KEYS {
          hydrated := hydrated[k := saved[k]];
        }
        todo := todo - {k};
      }
      assert (map k | k in saved && k in DURABLE_KEYS && k !in todo :: saved[k]) ==
        (map k | k in saved && k in DURABLE_KEYS :: saved[k]);
    }
  }

  /** A stored session object holds durable keys only, and no nulls. */
  predicate Shaped(fields: Fields) {
    fields.Keys <= DURABLE_KEYS && forall k | k in fields :: fields[k] != Null
  }

  /** And nothing secret in the clear. */
  predicate Proper(fields: Fields) {
    Shaped(fields) && Clean(Dict(fields))
  }

  /** No field that a save would store has a tuple with something secret in it. */
  predicate TidyPayload(payload: Fields) {
    forall k | k in payload && k in DURABLE_KEYS && !IsSecret(k) :: Tidy(payload[k])
  }

  lemma FilterForm(sealing: bool, data: Fields, k: string)
    ensures var kept := FilterDurable(sealing, data);
            && (k in kept <==> && k in DURABLE_KEYS && k in data && FieldForm(sealing, k, data[k]).Some?
                               && FieldForm(sealing, k, data[k]) != Some(Null))
            && (k in kept ==> FieldForm(sealing, k, data[k]) == Some(kept[k]))
  {
    hide IsSecret, NotBlank, IsDropped, Redact, Dumped, FieldForm;
    WrittenField(sealing, data, k);
    hide Written;
  }

  lemma FilterIsShaped(sealing: bool, data: Fields)
    ensures Shaped(FilterDurable(sealing, data))
  {
  }

  /** What a save keeps of its payload is clean exactly when the payload is tidy. */
  lemma FilterIsProperIff(sealing: bool, data: Fields)
    ensures Proper(FilterDurable(sealing, data)) <==> TidyPayload(data)
  {
    var kept := FilterDurable(sealing, data);
    FilterIsShaped(sealing, data);
    forall k | k in data && k in DURABLE_KEYS && !IsSecret(k)
      ensures if k in kept then Clean(kept[k]) <==> Tidy(data[k]) else Tidy(data[k])
    {
      FilterForm(sealing, data, k);
      WrittenIsCleanIff(sealing, data[k]);
    }
    forall k | k in kept ensures k in data && k in DURABLE_KEYS {
      FilterForm(sealing, data, k);
    }
    forall k | k in kept && IsSecret(k) ensures !IsDropped(k) && kept[k].Str? && kept[k].text.Sealed? {
      FilterForm(sealing, data, k);
    }
    hide FilterDurable, Tidy, Shaped, IsSecret, IsDropped;
  }

  lemma SaveIsShaped(s: Sessions, uid: int, payload: Fields, sealing: bool)
    requires forall u | u in s :: Shaped(s[u])
    ensures forall u | u in AfterSave(s, uid, payload, sealing) :: Shaped(AfterSave(s, uid, payload, sealing)[u])
  {
    hide FilterDurable;
    FilterIsShaped(sealing, payload);
  }

  /** Merging into a clean object gives a clean one exactly when what is merged in is clean. */
  lemma MergedIsProperIff(a: Fields, b: Fields)
    requires Proper(a) && Shaped(b)
    ensures Proper(a + b) <==> Proper(b)
  {
    hide IsSecret, IsDropped, Clean;
    FieldsClean(a);
    FieldsClean(b);
    FieldsClean(a + b);
    assert forall k | k in b :: k in a + b && (a + b)[k] == b[k];
    hide FieldClean;
  }

  predicate FieldClean(k: string, v: Json) {
    if IsSecret(k) then !IsDropped(k) && v.Str? && v.text.Sealed? else Clean(v)
  }

  lemma FieldsClean(fields: Fields)
    ensures Clean(Dict(fields)) <==> forall k | k in fields :: FieldClean(k, fields[k])
  {
    hide IsSecret, IsDropped;
  }
}
