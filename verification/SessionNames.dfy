/** Which names lumen/bot/session_store.py protects, said by the names themselves, and what becomes of the
    texts they hold. */
module SessionNames {
  import opened Prelude
  import opened Session

  predicate Ends(s: string, suffix: string) {
    exists n: nat :: n <= |s| && s[n..] == suffix
  }

  /** Names that hold a bot's token. */
  predicate BotTokenName(k: string) {
    Lower(k) in {"bot_token", "token", "telegram_bot_token", "api_token"}
  }

  /** Names that hold some other secret: anything called a token, a secret or a password, in any letter
      case, and API keys and authorization headers. */
  predicate SecretName(k: string) {
    || Ends(Lower(k), "_token") || Ends(Lower(k), "_secret") || Ends(Lower(k), "_password")
    || Lower(k) in {"token", "password", "secret", "api_key", "authorization"}
  }

  lemma EndsIff(s: string, suffix: string)
    ensures Ends(s, suffix) <==> EndsWith(s, suffix)
  {
    if EndsWith(s, suffix) {
      assert s[|s| - |suffix|..] == suffix;
    }
  }

  lemma LowerIs(k: string, low: string)
    requires |k| == |low| && forall i | 0 <= i < |k| :: LowerChar(k[i]) == low[i]
    ensures Lower(k) == low
  {
  }

  lemma LowerHasNoCapital(k: string)
    ensures forall i | 0 <= i < |Lower(k)| :: !('A' <= Lower(k)[i] <= 'Z')
  {
  }

  lemma ListedLower(k: string)
    requires k in SECRET_KEYS
    ensures Lower(k) in SECRET_KEYS
  {
    hide Lower;
    if k == "TOKEN" {
      LowerIs(k, "token");
    } else if k == "BOT_TOKEN" {
      LowerIs(k, "bot_token");
    } else if k == "TELEGRAM_BOT_TOKEN" {
      LowerIs(k, "telegram_bot_token");
    } else {
      LowerIs(k, k);
    }
  }

  lemma ListedIsSecret(low: string)
    requires low in SECRET_KEYS && forall i | 0 <= i < |low| :: !('A' <= low[i] <= 'Z')
    ensures low in {"token", "password", "secret", "api_key"} || Ends(low, "_token")
  {
    assert low !in {"TELEGRAM_BOT_TOKEN", "BOT_TOKEN", "TOKEN"} by {
      assert low != "" && !('A' <= low[0] <= 'Z');
    }
    assert "bot_token"[3..] == "_token" && "telegram_bot_token"[12..] == "_token" && "api_token"[3..] == "_token";
    assert "github_token"[6..] == "_token" && "gh_token"[2..] == "_token";
  }

  /** The listed names are among those. */
  lemma ListedNames(k: string)
    ensures k in SECRET_KEYS ==> Lower(k) in SECRET_KEYS
    ensures Lower(k) in SECRET_KEYS ==> SecretName(k)
  {
    if k in SECRET_KEYS {
      ListedLower(k);
    }
    LowerHasNoCapital(k);
    if Lower(k) in SECRET_KEYS {
      ListedIsSecret(Lower(k));
    }
    hide Lower, Ends;
  }

  /** A name counts as secret exactly if it is one of those. */
  lemma SecretNamesIff(k: string)
    ensures IsSecret(k) <==> SecretName(k)
    ensures IsDropped(k) <==> BotTokenName(k)
    ensures BotTokenName(k) ==> SecretName(k)
  {
    ListedNames(k);
    EndsIff(Lower(k), "_token");
    EndsIff(Lower(k), "_secret");
    EndsIff(Lower(k), "_password");
    hide Lower, Ends, EndsWith;
    assert BotTokenName(k) ==> Lower(k) in SECRET_KEYS;
  }

  /** At every depth: nothing under a bot-token name, and only sealed texts under the other secret names. */
  predicate ExposesNothing(j: Json) {
    match j
    case Dict(fields) =>
      forall k | k in fields ::
        && !BotTokenName(k)
        && (if SecretName(k) then fields[k].Str? && fields[k].text.Sealed? else ExposesNothing(fields[k]))
    case List(items) => forall i | 0 <= i < |items| :: ExposesNothing(items[i])
    case Tuple(members) => forall i | 0 <= i < |members| :: ExposesNothing(members[i])
    case _ => true
  }

  lemma {:induction false} CleanExposesNothing(j: Json)
    ensures Clean(j) <==> ExposesNothing(j)
  {
    match j
    case Dict(fields) =>
      forall k | k in fields
        ensures IsSecret(k) <==> SecretName(k)
        ensures IsDropped(k) <==> BotTokenName(k)
        ensures BotTokenName(k) ==> SecretName(k)
        ensures Clean(fields[k]) <==> ExposesNothing(fields[k])
      {
        SecretNamesIff(k);
        CleanExposesNothing(fields[k]);
      }
      hide IsSecret, SecretName, IsDropped, BotTokenName;
    case List(items) =>
      forall i | 0 <= i < |items| ensures Clean(items[i]) <==> ExposesNothing(items[i]) {
        CleanExposesNothing(items[i]);
      }
    case Tuple(members) =>
      forall i | 0 <= i < |members| ensures Clean(members[i]) <==> ExposesNothing(members[i]) {
        CleanExposesNothing(members[i]);
      }
    case _ =>
  }

  predicate NoTuple(j: Json) {
    match j
    case Dict(fields) => forall k | k in fields :: NoTuple(fields[k])
    case List(items) => forall i | 0 <= i < |items| :: NoTuple(items[i])
    case Tuple(_) => false
    case _ => true
  }

  lemma {:induction false} NoTupleIsTidy(j: Json)
    requires NoTuple(j)
    ensures Tidy(j)
  {
    match j
    case Dict(fields) =>
      forall k | k in fields { NoTupleIsTidy(fields[k]); }
    case List(items) =>
      forall i | 0 <= i < |items| { NoTupleIsTidy(items[i]); }
    case _ =>
  }

  /** Whatever a payload without tuples holds at whatever depth, a save puts nothing that is named a secret in
      the clear into the user's session: what was fit to be shown before is so after. */
  lemma SaveExposesNothing(s: Sessions, uid: int, payload: Fields, sealing: bool)
    requires NoTuple(Dict(payload)) && Shaped(Loaded(s, uid)) && ExposesNothing(Dict(Loaded(s, uid)))
    ensures ExposesNothing(Dict(AfterSave(s, uid, payload, sealing)[uid]))
  {
    var kept := FilterDurable(sealing, payload);
    assert TidyPayload(payload) by {
      forall k | k in payload && k in DURABLE_KEYS && !IsSecret(k) ensures Tidy(payload[k]) {
        NoTupleIsTidy(payload[k]);
      }
    }
    FilterIsProperIff(sealing, payload);
    CleanExposesNothing(Dict(Loaded(s, uid)));
    MergedIsProperIff(Loaded(s, uid), kept);
    CleanExposesNothing(Dict(Loaded(s, uid) + kept));
    hide FilterDurable, Clean, ExposesNothing, TidyPayload;
  }

  /** Nothing is lost that need not be: a text under a secret name other than a bot token's is stored sealed,
      blanks around it removed, where sealing works and the text is not blank; and under any other name
      values are stored as their own stored form. */
  lemma SecretsAreSealed(sealing: bool, fields: Fields, k: string)
    requires k in fields
    ensures var out := Written(sealing, Dict(fields));
            && out.Dict?
            && (BotTokenName(k) ==> k !in out.fields)
            && (!SecretName(k) ==> k in out.fields && out.fields[k] == Written(sealing, fields[k]))
            && (SecretName(k) && !BotTokenName(k) && fields[k].Str? && fields[k].text.Plain? ==>
                  && (k in out.fields <==> sealing && Strip(fields[k].text.chars) != "")
                  && (k in out.fields ==> out.fields[k] == Str(Sealed(Plain(Strip(fields[k].text.chars))))))
            && (SecretName(k) && !fields[k].Str? ==> k !in out.fields)
  {
    SecretNamesIff(k);
    WrittenField(sealing, fields, k);
    hide IsSecret, IsDropped, SecretName, BotTokenName, Written, Strip;
  }
}
