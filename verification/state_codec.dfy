/**
 * The flow state that OAuth::encodeState and OAuth::decodeState carry across
 * the redirect to the provider and back.
 *
 * encodeState writes the state as JSON and Base64-encodes the JSON text.
 * The code only ever encodes the object {"redirect": r}, where r is a
 * string or null. decodeState Base64-decodes its input and reads the JSON
 * text back.
 */
module StateCodec {
  import opened Wrappers
  import Base64
  import Json

  /** The state payload: the optional post-login redirect target. */
  datatype FlowState = FlowState(redirect: Option<string>)

  /** The text json_encode writes before the value of the one member. */
  const RedirectMember: string := "{\"redirect\":"

  /**
   * json_encode(array('redirect' => r)): the object whose single member
   * `redirect` holds the redirect, so the JSON reader gives the state back.
   */
  function StateJson(st: FlowState): (t: string)
    ensures Json.IsAscii(t)
    ensures |t| > |RedirectMember| && t[..|RedirectMember|] == RedirectMember && t[|t| - 1] == '}'
    ensures ParseStateJson(t) == Some(st)
  {
    match st.redirect
    case None =>
      ParseAfterMember("null}");
      RedirectMember + "null}"
    case Some(r) =>
      var value := "\"" + Json.EscapeString(r) + "\"}";
      ParseAfterMember(value);
      ParseRedirectValue(r);
      RedirectMember + value
  }

  /**
   * json_decode of a text in the layout StateJson writes: the member
   * "redirect" holding null or a string literal, with nothing around it.
   */
  function ParseStateJson(t: string): (r: Option<FlowState>)
  {
    if |t| < |RedirectMember| || t[..|RedirectMember|] != RedirectMember then None
    else ParseRedirectMember(t[|RedirectMember|..])
  }

  /** The value of the member and the closing brace: `null}` or a string literal and `}`. */
  function ParseRedirectMember(value: string): (r: Option<FlowState>)
  {
    if value == "null}" then Some(FlowState(None))
    else if value == [] || value[0] != '"' then None
    else
      match Json.ParseStringBody(value[1..])
      case Some((text, rest)) => if rest == "}" then Some(FlowState(Some(text))) else None
      case None => None
  }

  /** The bytes of an ASCII text. */
  function AsciiBytes(t: string): (b: seq<Base64.Byte>)
    requires Json.IsAscii(t)
    ensures |b| == |t| && forall i :: 0 <= i < |t| ==> b[i] == t[i] as int
  {
    seq(|t|, i requires 0 <= i < |t| => t[i] as int)
  }

  predicate AllAscii(b: seq<Base64.Byte>) {
    forall i :: 0 <= i < |b| ==> b[i] < 0x80
  }

  /** The text of ASCII bytes. */
  function AsciiText(b: seq<Base64.Byte>): (t: string)
    requires AllAscii(b)
    ensures |t| == |b| && forall i :: 0 <= i < |b| ==> t[i] as int == b[i]
  {
    seq(|b|, i requires 0 <= i < |b| => b[i] as char)
  }

  /**
   * OAuth::encodeState: base64_encode(json_encode(state)). The result is
   * padded Base64 text, four characters for every started group of three
   * bytes of the JSON text.
   */
  function EncodeState(st: FlowState): (s: string)
    ensures |s| == 4 * ((|StateJson(st)| + 2) / 3)
    ensures forall i :: 0 <= i < |s| ==> Base64.IsAlphabetChar(s[i]) || s[i] == Base64.Pad
  {
    var b := AsciiBytes(StateJson(st));
    Base64.EncodeShape(b);
    Base64.Encode(b)
  }

  /**
   * OAuth::decodeState: json_decode(base64_decode(s)); None where json_decode
   * gives null. Text with fewer than two Base64 characters, the empty text of
   * a missing state among them, decodes to no bytes and so to null.
   */
  function DecodeState(s: string): (r: Option<FlowState>)
    ensures |Base64.Sextets(s)| < 2 ==> r.None?
  {
    var b := Base64.Decode(s);
    if AllAscii(b) then ParseStateJson(AsciiText(b)) else None
  }

  /** What getRedirectFromState returns for a decoded state: its redirect, or null. */
  function RedirectOf(d: Option<FlowState>): (r: Option<string>)
    ensures r.Some? ==> d.Some? && d.value.redirect == r
    ensures d.Some? ==> r == d.value.redirect
  {
    match d
    case Some(st) => st.redirect
    case None => None
  }

  // ---------------------------------------------------------------------------
  // Round trip

  /** The reader checks the member name and then reads what follows it. */
  lemma {:induction false} ParseAfterMember(value: string)
    ensures ParseStateJson(RedirectMember + value) == ParseRedirectMember(value)
  {
    var t := RedirectMember + value;
    assert t[..|RedirectMember|] == RedirectMember;
    assert t[|RedirectMember|..] == value;
  }

  lemma {:induction false} ParseRedirectValue(r: string)
    ensures ParseRedirectMember("\"" + Json.EscapeString(r) + "\"}") == Some(FlowState(Some(r)))
  {
    var e := Json.EscapeString(r);
    var value := "\"" + e + "\"}";
    assert value[0] == '"';
    assert value[1..] == e + "\"" + "}";
    Json.ParseEscapeString(r, "}");
  }

  /** The state survives the trip: decodeState(encodeState(st)) == st. */
  lemma {:induction false} DecodeEncodeState(st: FlowState)
    ensures DecodeState(EncodeState(st)) == Some(st)
  {
    var t := StateJson(st);
    var b := AsciiBytes(t);
    Base64.DecodeEncode(b);
    assert AsciiText(b) == t;
  }

  /** A redirect written into the state is the redirect read back from it. */
  lemma {:induction false} RedirectRoundTrip(redirect: Option<string>)
    ensures RedirectOf(DecodeState(EncodeState(FlowState(redirect)))) == redirect
  {
    DecodeEncodeState(FlowState(redirect));
  }

  /** Encoding is injective: two different states never share an encoding. */
  lemma {:induction false} EncodeStateInjective(st1: FlowState, st2: FlowState)
    requires EncodeState(st1) == EncodeState(st2)
    ensures st1 == st2
  {
    DecodeEncodeState(st1);
    DecodeEncodeState(st2);
  }
}
