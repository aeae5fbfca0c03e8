/** Git protocol capabilities: parsing, negotiation against the advertisement, and their printed form. */
module Capabilities {
  import opened Text

  type Caps = map<Bytes, Bytes>

  function Value(caps: Caps, name: Bytes): Bytes {
    if name in caps then caps[name] else ""
  }

  // ----- tokens -----

  predicate ValidPart(value: Bytes) {
    forall i :: 0 <= i < |value| ==> value[i] > ' ' && value[i] != '\U{7F}'
  }

  function TokenName(token: Bytes): Bytes {
    token[..IndexOf(token, '=')]
  }

  /** The text after the first `=`, or nothing for a bare capability. */
  function TokenParameter(token: Bytes): Bytes {
    var n := IndexOf(token, '=');
    if n < |token| then token[n + 1..] else ""
  }

  predicate ValidToken(token: Bytes) {
    && TokenName(token) != "" && ValidPart(TokenName(token))
    && ('=' in token ==> TokenParameter(token) != "" && ValidPart(TokenParameter(token)))
  }

  // ----- parsing -----

  function AddTokens(tokens: seq<Bytes>, caps: Caps): Option<Caps> {
    if tokens == [] then Some(caps)
    else if !ValidToken(tokens[0]) || TokenName(tokens[0]) in caps then None
    else AddTokens(tokens[1..], caps[TokenName(tokens[0]) := TokenParameter(tokens[0])])
  }

  /** The meaning of ParseCapabilities: one optional leading space, then tokens between single spaces. */
  function CapsOf(value: Bytes): Option<Caps> {
    if value == "" then Some(map[])
    else
      var list := if value[0] == ' ' then value[1..] else value;
      if list == "" then None else AddTokens(Split(list, ' '), map[])
  }

  method ParseCapabilities(value: Bytes) returns (r: Option<Caps>)
    ensures r == CapsOf(value)
  {
    hide ValidToken, TokenName, TokenParameter, Split, IndexOf, Join;
    var caps: Caps := map[];
    if value == "" {
      return Some(caps);
    }
    var list := value;
    if list[0] == ' ' {
      list := list[1..];
      if list == "" {
        return None;
      }
    }
    var tokens := Split(list, ' ');
    var i := 0;
    while i < |tokens|
      invariant 0 <= i <= |tokens|
      invariant AddTokens(tokens, map[]) == AddTokens(tokens[i..], caps)
    {
      var token := tokens[i];
      assert tokens[i..][1..] == tokens[i + 1..];
      if !ValidToken(token) {
        return None;
      }
      if TokenName(token) in caps {
        return None;
      }
      caps := caps[TokenName(token) := TokenParameter(token)];
      i := i + 1;
    }
    return Some(caps);
  }

  // ----- printing -----

  predicate DistinctNames(tokens: seq<Bytes>) {
    forall i, j :: 0 <= i < j < |tokens| ==> TokenName(tokens[i]) != TokenName(tokens[j])
  }

  /** A capability list a client may send: valid tokens, no name twice. */
  predicate TokenList(tokens: seq<Bytes>) {
    && (forall i :: 0 <= i < |tokens| ==> ValidToken(tokens[i]) && ' ' !in tokens[i])
    && DistinctNames(tokens)
  }

  /** What a token list stands for. */
  ghost predicate Denotes(caps: Caps, tokens: seq<Bytes>) {
    && (forall i :: 0 <= i < |tokens| ==>
          TokenName(tokens[i]) in caps && caps[TokenName(tokens[i])] == TokenParameter(tokens[i]))
    && (forall name :: name in caps ==> exists i :: 0 <= i < |tokens| && TokenName(tokens[i]) == name)
  }

  /** The wire form: Git writes the list with or without one leading space. */
  function Print(tokens: seq<Bytes>, lead: bool): Bytes {
    if tokens == [] then "" else (if lead then " " else "") + Join(tokens, " ")
  }

  /** No token introduces a name already present, and no name comes twice. */
  predicate Fresh(tokens: seq<Bytes>, caps: Caps) {
    && (forall i :: 0 <= i < |tokens| ==> ValidToken(tokens[i]) && TokenName(tokens[i]) !in caps)
    && DistinctNames(tokens)
  }

  function Added(token: Bytes, caps: Caps): Caps {
    caps[TokenName(token) := TokenParameter(token)]
  }

  lemma FreshStep(tokens: seq<Bytes>, caps: Caps)
    requires tokens != []
    ensures Fresh(tokens, caps) <==>
            ValidToken(tokens[0]) && TokenName(tokens[0]) !in caps && Fresh(tokens[1..], Added(tokens[0], caps))
  {
    hide ValidToken, TokenName, TokenParameter;
    var rest := tokens[1..];
    assert forall i :: 1 <= i < |tokens| ==> tokens[i] == rest[i - 1];
    assert forall i :: 0 <= i < |rest| ==> rest[i] == tokens[i + 1];
  }

  lemma {:induction false} AddTokensIff(tokens: seq<Bytes>, caps: Caps)
    ensures AddTokens(tokens, caps).Some? <==> Fresh(tokens, caps)
  {
    hide ValidToken, TokenName, TokenParameter;
    if tokens != [] {
      FreshStep(tokens, caps);
      AddTokensIff(tokens[1..], Added(tokens[0], caps));
    }
  }

  /** The parsed map holds what was there before and one entry a token, and nothing else. */
  lemma {:induction false} AddTokensMeaning(tokens: seq<Bytes>, caps: Caps, name: Bytes)
    requires Fresh(tokens, caps) && AddTokens(tokens, caps).Some?
    ensures var r := AddTokens(tokens, caps).value;
            && (name in caps ==> name in r && r[name] == caps[name])
            && (forall i :: 0 <= i < |tokens| && TokenName(tokens[i]) == name ==>
                  name in r && r[name] == TokenParameter(tokens[i]))
            && (name in r && name !in caps ==> exists i :: 0 <= i < |tokens| && TokenName(tokens[i]) == name)
  {
    hide ValidToken, TokenName, TokenParameter;
    if tokens != [] {
      var rest, next := tokens[1..], Added(tokens[0], caps);
      FreshStep(tokens, caps);
      AddTokensMeaning(rest, next, name);
      assert forall i :: 1 <= i < |tokens| ==> tokens[i] == rest[i - 1];
      var r := AddTokens(tokens, caps).value;
      if name in r && name !in next {
        var j :| 0 <= j < |rest| && TokenName(rest[j]) == name;
        assert TokenName(tokens[j + 1]) == name;
      }
    }
  }

  lemma ParsedDenotes(tokens: seq<Bytes>)
    requires Fresh(tokens, map[])
    ensures AddTokens(tokens, map[]).Some? && Denotes(AddTokens(tokens, map[]).value, tokens)
  {
    hide ValidToken, TokenName, TokenParameter, Fresh;
    AddTokensIff(tokens, map[]);
    var r := AddTokens(tokens, map[]).value;
    forall i | 0 <= i < |tokens|
      ensures TokenName(tokens[i]) in r && r[TokenName(tokens[i])] == TokenParameter(tokens[i])
    {
      AddTokensMeaning(tokens, map[], TokenName(tokens[i]));
    }
    forall name | name in r
      ensures exists i :: 0 <= i < |tokens| && TokenName(tokens[i]) == name
    {
      AddTokensMeaning(tokens, map[], name);
    }
  }

  /** Printing then parsing always succeeds, and yields what the token list stands for. */
  lemma PrintParse(tokens: seq<Bytes>, lead: bool)
    requires TokenList(tokens)
    ensures CapsOf(Print(tokens, lead)).Some?
    ensures Denotes(CapsOf(Print(tokens, lead)).value, tokens)
  {
    if tokens != [] {
      var body := Join(tokens, " ");
      JoinHead(tokens, " ");
      assert ValidToken(tokens[0]) && tokens[0] != "" && tokens[0][0] != ' ' by {
        assert tokens[0][0] in tokens[0];
      }
      var text := Print(tokens, lead);
      assert lead ==> text[0] == ' ' && text[1..] == body;
      assert !lead ==> text == body;
      SplitJoin(tokens, ' ');
      ParsedDenotes(tokens);
    }
  }

  lemma JoinHead(parts: seq<Bytes>, sep: Bytes)
    requires parts != []
    ensures parts[0] <= Join(parts, sep)
  {
  }

  /** Every text the parser accepts is the print of a token list. */
  lemma ParsePrint(value: Bytes) returns (tokens: seq<Bytes>, lead: bool)
    requires CapsOf(value).Some?
    ensures TokenList(tokens) && Print(tokens, lead) == value
    ensures Denotes(CapsOf(value).value, tokens)
  {
    hide TokenName, TokenParameter, IndexOf, AddTokens;
    if value == "" {
      tokens, lead := [], false;
    } else {
      lead := value[0] == ' ';
      var list := if lead then value[1..] else value;
      tokens := Split(list, ' ');
      AddTokensIff(tokens, map[]);
      ParsedDenotes(tokens);
      assert lead ==> value == " " + list;
    }
  }

  // ----- negotiation -----

  /** Whether one requested capability is covered by the advertisement. */
  predicate Negotiable(name: Bytes, parameter: Bytes, advertised: Caps) {
    if name == "agent" || name == "session-id" then
      Value(advertised, name) != "" && parameter != ""
    else if name == "push-cert" || name == "object-format" then
      name in advertised && parameter != "" && parameter == advertised[name]
    else
      name in advertised && parameter == advertised[name]
  }

  predicate Negotiated(requested: Caps, advertised: Caps) {
    forall name :: name in requested ==> Negotiable(name, requested[name], advertised)
  }

  /** ValidateRequestedCapabilities: the verdict is the same in every map iteration order. */
  method ValidateRequested(requested: Caps, advertised: Caps) returns (ok: bool)
    ensures ok <==> Negotiated(requested, advertised)
  {
    var todo := requested.Keys;
    while todo != {}
      invariant todo <= requested.Keys
      invariant forall name :: name in requested && name !in todo ==> Negotiable(name, requested[name], advertised)
    {
      var name :| name in todo;
      if !Negotiable(name, requested[name], advertised) {
        return false;
      }
      todo := todo - {name};
    }
    return true;
  }
}
