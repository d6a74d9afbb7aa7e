/**
 * Credentials for the Linear issue tracker: the token lookup of
 * `linear_token` (src/main.rs:196-219), the header value of
 * `linear_auth_header` (src/main.rs:221-231), the request headers and the
 * acceptance test of `linear_graphql` (src/main.rs:233-256). The environment
 * is a map from variable names to values; the configuration file is its text,
 * or nothing when `HOME` is unset or the file cannot be read.
 */
module Linear {
  import opened Common
  import opened Text
  import opened Goal

  /** The environment variables consulted, in order. */
  const TokenVariables: seq<string> := ["LINEAR_API_KEY", "LINEAR_TOKEN", "LINEAR_API_TOKEN"]

  /** The prefix of a Linear personal API key. */
  const KeyPrefix: string := "lin_api_"

  /** The characters a key in the configuration text may contain: ASCII letters and digits, `_` and `-`. */
  predicate TokenChar(c: char) {
    ('a' <= c <= 'z') || ('A' <= c <= 'Z') || ('0' <= c <= '9') || c == '_' || c == '-'
  }

  /**
   * The configuration scan of `linear_token`: the run of key characters that
   * starts at the first `lin_api_`. The emptiness test after it never fails,
   * since the run always holds the prefix itself.
   */
  function ScanToken(config: string): (r: Option<string>)
    ensures r.Some? <==> Contains(config, KeyPrefix)
    ensures r.Some? ==> StartsWith(r.value, KeyPrefix) && forall k :: 0 <= k < |r.value| ==> TokenChar(r.value[k])
    ensures r.Some? ==>
      exists i: nat :: (i <= |config| && OccursAt(config, r.value, i)
        && (forall j: nat :: j < i ==> !OccursAt(config, KeyPrefix, j))
        && (i + |r.value| == |config| || !TokenChar(config[i + |r.value|])))
  {
    match IndexOf(config, KeyPrefix)
    case None => None
    case Some(i) =>
      var tail := config[i..];
      var token := TakeWhile(tail, TokenChar);
      PrefixOfTokenChars(tail, token);
      assert config[i..i + |token|] == token;
      assert OccursAt(config, token, i);
      assert i + |token| < |config| ==> config[i + |token|] == tail[|token|];
      if token == [] then None else Some(token)
  }

  /** A run of key characters taken from text that opens with `lin_api_` holds the whole prefix. */
  lemma PrefixOfTokenChars(tail: string, token: string)
    requires StartsWith(tail, KeyPrefix) && token == TakeWhile(tail, TokenChar)
    ensures |token| >= |KeyPrefix| && StartsWith(token, KeyPrefix)
  {
    forall k | 0 <= k < |KeyPrefix| ensures TokenChar(tail[k]) {
      assert tail[k] == KeyPrefix[k];
    }
    assert |token| >= |KeyPrefix|;
    assert token[..|KeyPrefix|] == tail[..|KeyPrefix|];
  }

  /** The variable `name` is set to something that is not blank. */
  predicate IsSet(env: map<string, string>, name: string) {
    name in env && Trim(env[name]) != []
  }

  /** The first of `names` whose variable is set to something that is not blank, trimmed. */
  function FirstSetVariable(env: map<string, string>, names: seq<string>): (r: Option<string>)
    ensures r.Some? ==> r.value != [] && Trimmed(r.value)
    decreases |names|
  {
    if names == [] then None
    else if IsSet(env, names[0]) then Some(Trim(env[names[0]]))
    else FirstSetVariable(env, names[1..])
  }

  /** The earliest variable that is set gives the token; later ones are never consulted. */
  lemma {:induction false} FirstSetVariableEarliest(env: map<string, string>, names: seq<string>, k: nat)
    requires k < |names| && IsSet(env, names[k])
    requires forall j :: 0 <= j < k ==> !IsSet(env, names[j])
    ensures FirstSetVariable(env, names) == Some(Trim(env[names[k]]))
    decreases k
  {
    if k > 0 {
      assert !IsSet(env, names[0]);
      assert forall j :: 0 <= j < k - 1 ==> names[1..][j] == names[j + 1];
      FirstSetVariableEarliest(env, names[1..], k - 1);
    }
  }

  /** No token comes from the environment exactly when none of the variables is set. */
  lemma {:induction false} FirstSetVariableNone(env: map<string, string>, names: seq<string>)
    ensures FirstSetVariable(env, names).None? <==> forall k :: 0 <= k < |names| ==> !IsSet(env, names[k])
    decreases |names|
  {
    if names != [] {
      FirstSetVariableNone(env, names[1..]);
      if !IsSet(env, names[0]) {
        forall k | 1 <= k < |names| ensures names[k] == names[1..][k - 1] {
        }
      }
    }
  }

  /** `linear_token`: the environment first, then a key found in the configuration text. */
  function LinearToken(env: map<string, string>, config: Option<string>): (r: Option<string>)
    ensures FirstSetVariable(env, TokenVariables).Some? ==> r == FirstSetVariable(env, TokenVariables)
    ensures FirstSetVariable(env, TokenVariables).None? && config.Some? ==> r == ScanToken(config.value)
    ensures FirstSetVariable(env, TokenVariables).None? && config.None? ==> r == None
    ensures r.Some? ==> r.value != []
  {
    match FirstSetVariable(env, TokenVariables)
    case Some(t) => Some(t)
    case None => if config.Some? then ScanToken(config.value) else None
  }

  /** `LINEAR_API_KEY` wins whenever it is set to something that is not blank. */
  lemma ApiKeyVariableWins(env: map<string, string>, config: Option<string>)
    requires "LINEAR_API_KEY" in env && Trim(env["LINEAR_API_KEY"]) != []
    ensures LinearToken(env, config) == Some(Trim(env["LINEAR_API_KEY"]))
  {
  }

  /** With `LINEAR_API_KEY` unset or blank, `LINEAR_TOKEN` is taken before `LINEAR_API_TOKEN`. */
  lemma TokenVariableBeforeApiToken(env: map<string, string>, config: Option<string>)
    requires !IsSet(env, "LINEAR_API_KEY") && IsSet(env, "LINEAR_TOKEN")
    ensures LinearToken(env, config) == Some(Trim(env["LINEAR_TOKEN"]))
  {
    FirstSetVariableEarliest(env, TokenVariables, 1);
  }

  /** The scheme word of an OAuth token, with its separating space. */
  const Bearer: string := "Bearer "

  /** The token with an optional `Bearer ` prefix removed: what the scheme is chosen for. */
  function BareToken(token: string): (r: string)
    ensures Trimmed(r)
    ensures StartsWith(Trim(token), Bearer) ==> r == Trim(Trim(token)[|Bearer|..])
    ensures !StartsWith(Trim(token), Bearer) ==> r == Trim(token)
  {
    var t := Trim(token);
    if StartsWith(t, Bearer) then Trim(t[|Bearer|..]) else t
  }

  /**
   * The credential `linear_auth_header` means: a personal key as it is, any
   * other token as a bearer token.
   */
  function LinearAuthValue(token: string): (r: string)
    ensures StartsWith(BareToken(token), KeyPrefix) ==> r == BareToken(token)
    ensures !StartsWith(BareToken(token), KeyPrefix) ==> r == Bearer + BareToken(token)
  {
    var t := BareToken(token);
    if StartsWith(t, KeyPrefix) then t else Bearer + t
  }

  /** The header name and separator that `linear_auth_header` puts in front of the credential. */
  const AuthName: string := "Authorization: "

  /** `a` opens `a + b`, and what follows it is `b`. */
  lemma PrefixOfConcat(a: string, b: string)
    ensures StartsWith(a + b, a) && (a + b)[|a|..] == b
  {
    assert (a + b)[..|a|] == a;
  }

  /** `linear_auth_header` as written: the whole header line, name included. */
  function LinearAuthHeader(token: string): (r: string)
    ensures StartsWith(r, AuthName)
    ensures r[|AuthName|..] == LinearAuthValue(token)
  {
    var t := BareToken(token);
    var value := if StartsWith(t, KeyPrefix) then t else Bearer + t;
    assert value == LinearAuthValue(token);
    PrefixOfConcat(AuthName, value);
    AuthName + value
  }

  /** A header sent as `name: value` on the wire. */
  function HeaderLine(name: string, value: string): string {
    name + ": " + value
  }

  /** The headers `linear_graphql` sends, as written: `linear_auth_header`'s line passed as the value. */
  function RequestHeaders(token: string): (r: seq<(string, string)>)
    ensures |r| == 2 && r[0] == ("Content-Type", "application/json")
    ensures r[1].0 == "Authorization" && StartsWith(r[1].1, AuthName) && r[1].1[|AuthName|..] == LinearAuthValue(token)
  {
    [("Content-Type", "application/json"), ("Authorization", LinearAuthHeader(token))]
  }

  /** The headers as intended: the credential alone as the value of `Authorization`. */
  function CorrectedRequestHeaders(token: string): seq<(string, string)> {
    [("Content-Type", "application/json"), ("Authorization", LinearAuthValue(token))]
  }

  /** As written, the header on the wire repeats its own name inside the value. */
  lemma AuthorizationNameSentTwice(token: string)
    ensures var (name, value) := RequestHeaders(token)[1];
      StartsWith(HeaderLine(name, value), AuthName + AuthName)
  {
    var value := LinearAuthHeader(token);
    var rest := value[|AuthName|..];
    AuthorizationLine(value);
    assert value == AuthName + rest;
    assert HeaderLine("Authorization", value) == (AuthName + AuthName) + rest;
    PrefixOfConcat(AuthName + AuthName, rest);
  }

  /** An `Authorization` header on the wire is its value behind `Authorization: `. */
  lemma AuthorizationLine(value: string)
    ensures HeaderLine("Authorization", value) == AuthName + value
  {
    assert "Authorization" + ": " == AuthName;
  }

  /** A personal key already trimmed goes out behind the header name twice. */
  lemma KeyHeaderLine(t: string)
    requires Trimmed(t) && StartsWith(t, KeyPrefix)
    ensures HeaderLine("Authorization", LinearAuthHeader(t)) == AuthName + AuthName + t
  {
    TrimOfTrimmed(t);
    assert !StartsWith(t, Bearer) by {
      assert t[0] == KeyPrefix[0];
    }
    assert BareToken(t) == t;
    AuthorizationLine(LinearAuthHeader(t));
  }

  /** A concrete instance: the key `lin_api_X` goes out as `Authorization: Authorization: lin_api_X`. */
  lemma AuthorizationNameSentTwiceExample()
    ensures var (name, value) := RequestHeaders("lin_api_X")[1];
      HeaderLine(name, value) == AuthName + AuthName + "lin_api_X"
  {
    var t := "lin_api_X";
    assert Trimmed(t) by {
      assert t[0] == 'l' && t[|t| - 1] == 'X';
    }
    assert StartsWith(t, KeyPrefix) by {
      assert t[..|KeyPrefix|] == KeyPrefix;
    }
    KeyHeaderLine(t);
    assert RequestHeaders(t)[1] == ("Authorization", LinearAuthHeader(t));
  }

  /** Corrected, the line on the wire is exactly the line `linear_auth_header` describes. */
  lemma CorrectedHeaderMatchesIntent(token: string)
    ensures var (name, value) := CorrectedRequestHeaders(token)[1];
      HeaderLine(name, value) == LinearAuthHeader(token)
  {
    var h := LinearAuthHeader(token);
    assert h == h[..|AuthName|] + h[|AuthName|..];
  }

  /** Stripping `Bearer ` and trimming again: `"Bearer X"` and `"X"` give the same credential. */
  lemma BearerPrefixIgnored(t: string)
    requires Trimmed(t) && t != [] && !StartsWith(t, Bearer)
    ensures LinearAuthValue(Bearer + t) == LinearAuthValue(t)
  {
    var s := Bearer + t;
    assert s[0] == 'B' && s[|s| - 1] == t[|t| - 1];
    TrimOfTrimmed(s);
    TrimOfTrimmed(t);
    PrefixOfConcat(Bearer, t);
    assert BareToken(s) == t;
    assert BareToken(t) == t;
  }

  /** `linear_graphql`'s acceptance of a reply: a JSON body, a success status and no `errors` member. */
  function AcceptReply(success: bool, body: Option<Json>): (r: Option<Json>)
    ensures r.Some? <==> body.Some? && success && Get(body.value, "errors").None?
    ensures r.Some? ==> r == body
  {
    match body
    case None => None
    case Some(value) =>
      if !success then None
      else if Get(value, "errors").Some? then None
      else Some(value)
  }
}
