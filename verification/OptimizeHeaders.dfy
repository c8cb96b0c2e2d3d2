/** Removing the headers of a request that the server does not need, without
    touching any header its SigV4 signature covers. */
module OptimizeHeaders {
  import opened Wrappers
  import opened Text
  import Sorting
  import opened Splitting

  const ALGORITHM := "AWS4-HMAC-SHA256"
  const SIGNED_HEADERS := "SignedHeaders"

  const BASE_WHITELIST: set<string> := {
    "host", "x-amz-target", "content-length", "content-type", "accept-encoding", "content-encoding"
  }
  const AUTH_WHITELIST: set<string> := {"authorization", "x-amz-date", "x-amz-user-agent", "x-amz-security-token"}

  // ----- The authorization header: a grammar -----

  datatype Parameter = Parameter(name: string, value: string)

  predicate IsCanonicalHeaderName(header: string) {
    header != "" && forall i :: 0 <= i < |header| ==> IsTokenChar(header[i])
  }

  // A token character of section 5.6.2 of RFC 9110 that is not upper case.
  predicate IsTokenChar(c: char) {
    'a' <= c <= 'z' || '0' <= c <= '9' || c in "!#$%&'*+-.^_`|~"
  }

  predicate NoAsciiWhitespace(s: string) {
    forall i :: 0 <= i < |s| ==> !IsAsciiWhitespace(s[i])
  }

  predicate WellFormed(p: Parameter) {
    && p.name != "" && p.value != "" && '=' !in p.name && '=' !in p.value
    && NoAsciiWhitespace(p.name) && NoAsciiWhitespace(p.value)
    && !IsWhitespace(p.name[0]) && !IsWhitespace(p.value[|p.value| - 1])
  }

  function ParameterText(p: Parameter): string {
    p.name + ['='] + p.value
  }

  ghost predicate Renders(raw: string, p: Parameter) {
    WellFormed(p)
    && exists left: string, right: string :: PaddedWith(raw, left, ParameterText(p), right)
  }

  predicate PaddedWith(raw: string, left: string, text: string, right: string) {
    Blank(left) && Blank(right) && raw == left + text + right
  }

  // What may be signed: at least one canonical name, in strictly rising order.
  ghost predicate IsSignedList(headers: seq<string>) {
    && headers != [] && Sorting.StrictlySorted(headers)
    && forall i :: 0 <= i < |headers| ==> IsCanonicalHeaderName(headers[i])
  }

  predicate OnlySigned(ps: seq<Parameter>, k: nat) {
    forall i :: 0 <= i < |ps| ==> (ps[i].name == SIGNED_HEADERS <==> i == k)
  }

  // `authorization` is the algorithm and a comma-separated list of padded
  // parameters of which only the `k`-th is called SignedHeaders, and that one
  // lists `headers`.
  ghost predicate SignsWith(
    authorization: string, headers: seq<string>, raws: seq<string>, ps: seq<Parameter>, k: nat)
  {
    && |raws| == |ps| && k < |ps|
    && authorization == ALGORITHM + [' '] + Join(raws, ',')
    && (forall i :: 0 <= i < |raws| ==> ',' !in raws[i] && Renders(raws[i], ps[i]))
    && OnlySigned(ps, k)
    && Trim(ps[k].value) == Join(headers, ';')
    && IsSignedList(headers)
  }

  ghost predicate Signs(authorization: string, headers: seq<string>) {
    exists raws: seq<string>, ps: seq<Parameter>, k: nat :: SignsWith(authorization, headers, raws, ps, k)
  }

  // ----- The parser -----

  function ParseParameter(raw: string): Option<Parameter> {
    var p := Trim(raw);
    if p == "" || !NoAsciiWhitespace(p) then None
    else
      match SplitOnce(p, '=')
      case None => None
      case Some((name, value)) =>
        if name == "" || value == "" || '=' in value then None else Some(Parameter(name, value))
  }

  // The values of the parameters called SignedHeaders, if every one of `raws`
  // is a parameter.
  function SignedValues(raws: seq<string>): Option<seq<string>> {
    if raws == [] then Some([])
    else
      match (SignedValues(raws[..|raws| - 1]), ParseParameter(raws[|raws| - 1]))
      case (Some(values), Some(p)) => Some(if p.name == SIGNED_HEADERS then values + [p.value] else values)
      case _ => None
  }

  predicate Rising(headers: seq<string>) {
    forall i :: 0 < i < |headers| ==> Less(headers[i - 1], headers[i])
  }

  function SignedHeadersOf(authorization: string): Option<seq<string>> {
    match SplitOnce(authorization, ' ')
    case None => None
    case Some((algorithm, parameters)) =>
      if algorithm != ALGORITHM then None
      else
        match SignedValues(Split(parameters, ','))
        case None => None
        case Some(values) => if |values| != 1 then None else HeaderList(values[0])
  }

  function HeaderList(value: string): Option<seq<string>> {
    var headers := Split(Trim(value), ';');
    if Rising(headers) && forall i :: 0 <= i < |headers| ==> IsCanonicalHeaderName(headers[i]) then Some(headers)
    else None
  }

  method ParseSignedHeaders(authorization: string) returns (r: Option<seq<string>>)
    ensures r == SignedHeadersOf(authorization)
  {
    var cut := SplitOnce(authorization, ' ');
    if cut.None? || cut.value.0 != ALGORITHM {
      return None;
    }
    var raws := Split(cut.value.1, ',');
    var signedHeaders: Option<string> := None;
    var i := 0;
    while i < |raws|
      invariant 0 <= i <= |raws|
      invariant SignedValues(raws[..i]) == Some(match signedHeaders case None => [] case Some(v) => [v])
    {
      SignedValuesStep(raws, i);
      var parameter := ParseParameter(raws[i]);
      if parameter.None? {
        StaysRejected(raws, i + 1);
        return None;
      }
      if parameter.value.name == SIGNED_HEADERS {
        if signedHeaders.Some? {
          StaysRepeated(raws, i + 1);
          return None;
        }
        signedHeaders := Some(parameter.value.value);
        assert [] + [parameter.value.value] == [parameter.value.value];
      }
      i := i + 1;
    }
    assert raws[..i] == raws;
    if signedHeaders.None? {
      return None;
    }
    return HeaderList(signedHeaders.value);
  }

  lemma SignedValuesStep(raws: seq<string>, i: nat)
    requires i < |raws|
    ensures SignedValues(raws[..i + 1]) ==
            match (SignedValues(raws[..i]), ParseParameter(raws[i]))
            case (Some(values), Some(p)) => Some(if p.name == SIGNED_HEADERS then values + [p.value] else values)
            case _ => None
  {
    assert raws[..i + 1][..i] == raws[..i];
  }

  lemma {:induction false} StaysRejected(raws: seq<string>, i: nat)
    requires i <= |raws| && SignedValues(raws[..i]).None?
    ensures SignedValues(raws).None?
    decreases |raws|
  {
    if i == |raws| {
      assert raws[..i] == raws;
    } else {
      assert raws[..|raws| - 1][..i] == raws[..i];
      StaysRejected(raws[..|raws| - 1], i);
    }
  }

  lemma {:induction false} StaysRepeated(raws: seq<string>, i: nat)
    requires i <= |raws| && SignedValues(raws[..i]).Some? && |SignedValues(raws[..i]).value| >= 2
    ensures SignedValues(raws).Some? ==> |SignedValues(raws).value| >= 2
    decreases |raws|
  {
    if i == |raws| {
      assert raws[..i] == raws;
    } else {
      assert raws[..|raws| - 1][..i] == raws[..i];
      StaysRepeated(raws[..|raws| - 1], i);
    }
  }

  // ----- The parser meets the grammar -----

  lemma ParseParameterMeaning(raw: string, p: Parameter)
    ensures ParseParameter(raw) == Some(p) <==> Renders(raw, p)
  {
    SplitOnceMeaning(Trim(raw), '=', p.name, p.value);
    var left, right := TrimCuts(raw);
    var text := ParameterText(p);
    if ParseParameter(raw) == Some(p) {
      assert Trim(raw) == text;
      assert PaddedWith(raw, left, text, right);
      TextParts(p);
    }
    if Renders(raw, p) {
      var l: string, r: string :| PaddedWith(raw, l, text, r);
      TextParts(p);
      TrimUndoes(l, text, r);
    }
  }

  lemma TextParts(p: Parameter)
    requires p.name != "" && p.value != ""
    ensures var text := ParameterText(p);
            && text[0] == p.name[0] && text[|text| - 1] == p.value[|p.value| - 1]
            && (NoAsciiWhitespace(text) <==> NoAsciiWhitespace(p.name) && NoAsciiWhitespace(p.value))
  {
    var text := ParameterText(p);
    assert forall i :: 0 <= i < |p.name| ==> text[i] == p.name[i];
    assert forall i :: 0 <= i < |p.value| ==> text[|p.name| + 1 + i] == p.value[i];
    if NoAsciiWhitespace(text) {
      forall i | 0 <= i < |p.value| ensures !IsAsciiWhitespace(p.value[i]) {
        assert text[|p.name| + 1 + i] == p.value[i];
      }
    }
  }

  lemma {:induction false} SignedValuesMeaning(raws: seq<string>, ps: seq<Parameter>, k: nat)
    requires |raws| == |ps| && forall i :: 0 <= i < |raws| ==> Renders(raws[i], ps[i])
    requires OnlySigned(ps, k)
    ensures SignedValues(raws) == Some(if k < |ps| then [ps[k].value] else [])
  {
    if raws != [] {
      var n := |raws| - 1;
      var p := ps[n];
      assert OnlySigned(ps[..n], k);
      SignedValuesMeaning(raws[..n], ps[..n], k);
      ParseParameterMeaning(raws[n], p);
      if n == k {
        assert [] + [p.value] == [p.value];
      } else {
        assert SignedValues(raws) == SignedValues(raws[..n]);
      }
    }
  }

  lemma {:induction false} SignedValuesInverse(raws: seq<string>) returns (ps: seq<Parameter>)
    requires SignedValues(raws).Some?
    ensures |ps| == |raws| && forall i :: 0 <= i < |raws| ==> Renders(raws[i], ps[i])
    ensures var values := SignedValues(raws).value;
            && (values == [] ==> forall i :: 0 <= i < |ps| ==> ps[i].name != SIGNED_HEADERS)
            && (|values| == 1 ==> exists k: nat :: SignedAt(ps, k, values[0]))
  {
    ps := [];
    if raws != [] {
      var n := |raws| - 1;
      var before := SignedValuesInverse(raws[..n]);
      var p := ParseParameter(raws[n]).value;
      ParseParameterMeaning(raws[n], p);
      ps := before + [p];
      SignedAtEnd(before, p, SignedValues(raws[..n]).value, SignedValues(raws).value);
    }
  }

  lemma SignedAtEnd(before: seq<Parameter>, p: Parameter, earlier: seq<string>, values: seq<string>)
    requires earlier == [] ==> forall i :: 0 <= i < |before| ==> before[i].name != SIGNED_HEADERS
    requires |earlier| == 1 ==> exists k: nat :: SignedAt(before, k, earlier[0])
    requires values == if p.name == SIGNED_HEADERS then earlier + [p.value] else earlier
    ensures var ps := before + [p];
            && (values == [] ==> forall i :: 0 <= i < |ps| ==> ps[i].name != SIGNED_HEADERS)
            && (|values| == 1 ==> exists k: nat :: SignedAt(ps, k, values[0]))
  {
    var ps, n := before + [p], |before|;
    if |values| == 1 {
      if p.name == SIGNED_HEADERS {
        assert SignedAt(ps, n, values[0]);
      } else {
        var k: nat :| SignedAt(before, k, values[0]);
        assert SignedAt(ps, k, values[0]);
      }
    }
  }

  predicate SignedAt(ps: seq<Parameter>, k: nat, value: string) {
    k < |ps| && ps[k].value == value && OnlySigned(ps, k)
  }

  lemma {:induction false} RisingIsSorted(headers: seq<string>)
    ensures Rising(headers) <==> Sorting.StrictlySorted(headers)
  {
    if |headers| >= 2 {
      var n := |headers| - 1;
      RisingIsSorted(headers[..n]);
      if Sorting.StrictlySorted(headers) {
        assert forall i :: 0 < i < |headers| ==> Less(headers[i - 1], headers[i]);
      }
      if Rising(headers) {
        assert forall i :: 0 < i < n ==> Less(headers[..n][i - 1], headers[..n][i]);
        assert Sorting.StrictlySorted(headers[..n]);
        forall i, j | 0 <= i < j < |headers| ensures Less(headers[i], headers[j]) {
          if j < n {
            assert Less(headers[..n][i], headers[..n][j]);
          } else if i < n - 1 {
            assert Less(headers[..n][i], headers[..n][n - 1]);
            LessTransitive(headers[i], headers[n - 1], headers[n]);
          }
        }
      }
    }
  }

  lemma CanonicalNamesDoNotSplit(headers: seq<string>)
    requires IsSignedList(headers)
    ensures Split(Join(headers, ';'), ';') == headers
  {
    forall i | 0 <= i < |headers| ensures ';' !in headers[i] {
      assert IsCanonicalHeaderName(headers[i]);
    }
    SplitJoin(headers, ';');
  }

  lemma HeaderListMeaning(value: string, headers: seq<string>)
    ensures HeaderList(value) == Some(headers) <==> Trim(value) == Join(headers, ';') && IsSignedList(headers)
  {
    RisingIsSorted(headers);
    if HeaderList(value) == Some(headers) {
      JoinSplit(Trim(value), ';');
    }
    if Trim(value) == Join(headers, ';') && IsSignedList(headers) {
      CanonicalNamesDoNotSplit(headers);
    }
  }

  lemma AcceptedIsSigned(authorization: string, headers: seq<string>)
    requires SignedHeadersOf(authorization) == Some(headers)
    ensures Signs(authorization, headers)
  {
    var (algorithm, parameters) := SplitOnce(authorization, ' ').value;
    SplitOnceMeaning(authorization, ' ', algorithm, parameters);
    var raws := Split(parameters, ',');
    JoinSplit(parameters, ',');
    var values := SignedValues(raws).value;
    HeaderListMeaning(values[0], headers);
    var ps := SignedValuesInverse(raws);
    var k: nat :| SignedAt(ps, k, values[0]);
    assert SignsWith(authorization, headers, raws, ps, k);
  }

  lemma SignedIsAccepted(
    authorization: string, headers: seq<string>, raws: seq<string>, ps: seq<Parameter>, k: nat)
    requires SignsWith(authorization, headers, raws, ps, k)
    ensures SignedHeadersOf(authorization) == Some(headers)
  {
    AlgorithmIsOneWord();
    SplitOnceMeaning(authorization, ' ', ALGORITHM, Join(raws, ','));
    SplitJoin(raws, ',');
    SignedValuesMeaning(raws, ps, k);
    HeaderListMeaning(ps[k].value, headers);
  }

  lemma AlgorithmIsOneWord()
    ensures ' ' !in ALGORITHM
  {
    assert forall c :: c in ALGORITHM ==> '-' <= c;
  }

  // The parser accepts exactly the language of the grammar, and returns the
  // list that was signed.
  lemma ParserMeetsGrammar(authorization: string, headers: seq<string>)
    ensures SignedHeadersOf(authorization) == Some(headers) <==> Signs(authorization, headers)
  {
    if SignedHeadersOf(authorization) == Some(headers) {
      AcceptedIsSigned(authorization, headers);
    }
    if Signs(authorization, headers) {
      var raws: seq<string>, ps: seq<Parameter>, k: nat :| SignsWith(authorization, headers, raws, ps, k);
      SignedIsAccepted(authorization, headers, raws, ps, k);
    }
  }

  // ----- Formatting and parsing again -----

  // The header as signers write it: parameters separated by a comma and a space.
  function Format(ps: seq<Parameter>): string {
    ALGORITHM + [' '] + Join(Raws(ps), ',')
  }

  function Raws(ps: seq<Parameter>): (raws: seq<string>)
    ensures |raws| == |ps|
    ensures forall i :: 0 <= i < |ps| ==> raws[i] == (if i == 0 then "" else " ") + ParameterText(ps[i])
  {
    seq(|ps|, i requires 0 <= i < |ps| => (if i == 0 then "" else " ") + ParameterText(ps[i]))
  }

  predicate Plain(p: Parameter) {
    WellFormed(p) && ',' !in p.name && ',' !in p.value
  }

  // A parameter that does not take part in the choice of signed headers.
  predicate IsOther(p: Parameter) {
    Plain(p) && p.name != SIGNED_HEADERS
  }

  // Whatever surrounds it, a formatted list of signed headers is read back.
  lemma FormatThenParse(before: seq<Parameter>, headers: seq<string>, after: seq<Parameter>)
    requires IsSignedList(headers)
    requires forall i :: 0 <= i < |before| ==> IsOther(before[i])
    requires forall i :: 0 <= i < |after| ==> IsOther(after[i])
    ensures SignedHeadersOf(Format(before + [Parameter(SIGNED_HEADERS, Join(headers, ';'))] + after)) == Some(headers)
  {
    var signed := Parameter(SIGNED_HEADERS, Join(headers, ';'));
    var ps, k := before + [signed] + after, |before|;
    SignedParameterIsWellFormed(headers);
    OneAmongOthers(before, signed, after);
    FormatSigns(headers, ps, k);
    SignedIsAccepted(Format(ps), headers, Raws(ps), ps, k);
  }

  lemma AlreadyTrimmed(s: string)
    requires Trimmed(s) && s != ""
    ensures Trim(s) == s
  {
    TrimUndoes("", s, "");
    assert "" + s + "" == s;
  }

  lemma FormatSigns(headers: seq<string>, ps: seq<Parameter>, k: nat)
    requires IsSignedList(headers) && k < |ps| && OnlySigned(ps, k) && ps[k].value == Join(headers, ';')
    requires forall i :: 0 <= i < |ps| ==> Plain(ps[i])
    ensures SignsWith(Format(ps), headers, Raws(ps), ps, k)
  {
    SignedParameterIsWellFormed(headers);
    AlreadyTrimmed(ps[k].value);
    forall i | 0 <= i < |ps| ensures ',' !in Raws(ps)[i] && Renders(Raws(ps)[i], ps[i]) {
      RawIsRendered(ps, i);
    }
  }

  lemma OneAmongOthers(before: seq<Parameter>, signed: Parameter, after: seq<Parameter>)
    requires signed.name == SIGNED_HEADERS && Plain(signed)
    requires forall i :: 0 <= i < |before| ==> IsOther(before[i])
    requires forall i :: 0 <= i < |after| ==> IsOther(after[i])
    ensures var ps := before + [signed] + after;
            && ps[|before|] == signed && OnlySigned(ps, |before|)
            && forall i :: 0 <= i < |ps| ==> Plain(ps[i])
  {
    var ps := before + [signed] + after;
    forall i | 0 <= i < |ps| ensures if i == |before| then ps[i] == signed else IsOther(ps[i]) {
      if i > |before| {
        assert ps[i] == after[i - |before| - 1];
      }
    }
  }

  lemma RawIsRendered(ps: seq<Parameter>, i: nat)
    requires i < |ps| && Plain(ps[i])
    ensures ',' !in Raws(ps)[i] && Renders(Raws(ps)[i], ps[i])
  {
    var left := if i == 0 then "" else " ";
    assert Raws(ps)[i] == left + ParameterText(ps[i]) + "";
    assert PaddedWith(Raws(ps)[i], left, ParameterText(ps[i]), "");
  }

  predicate IsListChar(c: char) {
    IsTokenChar(c) || c == ';'
  }

  lemma {:induction false} JoinedChars(headers: seq<string>)
    requires headers != [] && forall i :: 0 <= i < |headers| ==> IsCanonicalHeaderName(headers[i])
    ensures Join(headers, ';') != ""
    ensures forall i :: 0 <= i < |Join(headers, ';')| ==> IsListChar(Join(headers, ';')[i])
  {
    if |headers| > 1 {
      JoinedChars(headers[1..]);
    }
  }

  lemma SignedParameterIsWellFormed(headers: seq<string>)
    requires IsSignedList(headers)
    ensures var p := Parameter(SIGNED_HEADERS, Join(headers, ';'));
            Plain(p) && Trimmed(p.value)
  {
    JoinedChars(headers);
    var value := Join(headers, ';');
    forall c | IsListChar(c) ensures !IsWhitespace(c) && !IsAsciiWhitespace(c) && c != '=' && c != ',' {
      ListCharIsPlain(c);
    }
    SignedHeadersName();
  }

  lemma ListCharIsPlain(c: char)
    requires IsListChar(c)
    ensures !IsWhitespace(c) && !IsAsciiWhitespace(c) && c != '=' && c != ','
  {
  }

  lemma SignedHeadersName()
    ensures ',' !in SIGNED_HEADERS && '=' !in SIGNED_HEADERS && SIGNED_HEADERS != "" && NoAsciiWhitespace(SIGNED_HEADERS)
    ensures !IsWhitespace(SIGNED_HEADERS[0])
  {
    assert forall c :: c in SIGNED_HEADERS ==> 'A' <= c <= 'z';
  }

  // ----- Stripping -----

  // Values by lower-case name.
  type Headers = map<string, seq<string>>

  class Request {
    var headers: Headers

    constructor (headers: Headers)
      ensures this.headers == headers
    {
      this.headers := headers;
    }
  }

  predicate Allowed(key: string, preserveAuth: bool, signed: seq<string>) {
    key in BASE_WHITELIST || (preserveAuth && (key in AUTH_WHITELIST || key in signed))
  }

  // The signed headers to preserve, or `None` when the request must be left alone.
  function ToPreserve(headers: Headers, preserveAuth: bool): Option<seq<string>> {
    if !preserveAuth then Some([])
    else if "authorization" in headers && |headers["authorization"]| == 1 then
      SignedHeadersOf(headers["authorization"][0])
    else None
  }

  function Stripped(headers: Headers, preserveAuth: bool): Headers {
    match ToPreserve(headers, preserveAuth)
    case None => headers
    case Some(signed) => map key | key in headers && Allowed(key, preserveAuth, signed) :: headers[key]
  }

  method StripHeaders(request: Request, preserveAuth: bool)
    modifies request
    ensures request.headers == Stripped(old(request.headers), preserveAuth)
  {
    var signed: seq<string> := [];
    if preserveAuth {
      if "authorization" !in request.headers || |request.headers["authorization"]| != 1 {
        return;
      }
      var parsed := ParseSignedHeaders(request.headers["authorization"][0]);
      if parsed.None? {
        return;
      }
      signed := parsed.value;
    }
    ghost var before := request.headers;
    var unallowed := set key | key in request.headers && !Allowed(key, preserveAuth, signed);
    while unallowed != {}
      invariant unallowed <= request.headers.Keys <= before.Keys
      invariant forall key :: key in request.headers ==> request.headers[key] == before[key]
      invariant forall key :: key in before ==>
        (key in unallowed <==> key in request.headers && !Allowed(key, preserveAuth, signed))
        && (Allowed(key, preserveAuth, signed) ==> key in request.headers)
      decreases |unallowed|
    {
      var key :| key in unallowed;
      request.headers := request.headers - {key};
      unallowed := unallowed - {key};
    }
  }

  ghost predicate SignedByGrammar(headers: Headers) {
    && "authorization" in headers && |headers["authorization"]| == 1
    && exists signed: seq<string> :: Signs(headers["authorization"][0], signed)
  }

  // A signed request is touched only if it has one authorization header and
  // that header is in the grammar.
  lemma LeftAloneUnlessUnderstood(headers: Headers)
    ensures ToPreserve(headers, true).Some? <==> SignedByGrammar(headers)
    ensures !SignedByGrammar(headers) ==> Stripped(headers, true) == headers
  {
    if "authorization" in headers && |headers["authorization"]| == 1 {
      var authorization := headers["authorization"][0];
      forall signed: seq<string>
        ensures SignedHeadersOf(authorization) == Some(signed) <==> Signs(authorization, signed)
      {
        ParserMeetsGrammar(authorization, signed);
      }
      if ToPreserve(headers, true).Some? {
        assert Signs(authorization, SignedHeadersOf(authorization).value);
      }
    }
  }

  lemma StripIdempotent(headers: Headers, preserveAuth: bool)
    ensures Stripped(Stripped(headers, preserveAuth), preserveAuth) == Stripped(headers, preserveAuth)
  {
    if preserveAuth && ToPreserve(headers, preserveAuth).Some? {
      assert "authorization" in AUTH_WHITELIST;
      assert Stripped(headers, preserveAuth)["authorization"] == headers["authorization"];
    }
  }

  // What the verifier of the signature will look up: each signed header's values.
  function SignedView(headers: Headers, signed: seq<string>): seq<Option<seq<string>>> {
    seq(|signed|, i requires 0 <= i < |signed| => if signed[i] in headers then Some(headers[signed[i]]) else None)
  }

  // For a request whose one authorization header was written by a signer,
  // stripping keeps the signature's view of the request and that header, and
  // of everything else exactly the two whitelists.
  lemma SignatureSurvives(
    headers: Headers, before: seq<Parameter>, signed: seq<string>, after: seq<Parameter>)
    requires IsSignedList(signed)
    requires forall i :: 0 <= i < |before| ==> IsOther(before[i])
    requires forall i :: 0 <= i < |after| ==> IsOther(after[i])
    requires "authorization" in headers
    requires headers["authorization"] == [Format(before + [Parameter(SIGNED_HEADERS, Join(signed, ';'))] + after)]
    ensures SignedView(Stripped(headers, true), signed) == SignedView(headers, signed)
    ensures "authorization" in Stripped(headers, true)
    ensures forall key :: key in headers && key !in signed ==>
              (key in Stripped(headers, true) <==> key in BASE_WHITELIST + AUTH_WHITELIST)
  {
    FormatThenParse(before, signed, after);
    var stripped := Stripped(headers, true);
    forall i | 0 <= i < |signed| ensures SignedView(stripped, signed)[i] == SignedView(headers, signed)[i] {
      assert signed[i] in signed;
    }
  }

  // Whatever list is accepted is strictly sorted and canonical, and every
  // header on it survives.
  lemma AcceptedListSurvives(headers: Headers, signed: seq<string>)
    requires ToPreserve(headers, true) == Some(signed)
    ensures IsSignedList(signed)
    ensures SignedView(Stripped(headers, true), signed) == SignedView(headers, signed)
  {
    ParserMeetsGrammar(headers["authorization"][0], signed);
    var stripped := Stripped(headers, true);
    forall i | 0 <= i < |signed| ensures SignedView(stripped, signed)[i] == SignedView(headers, signed)[i] {
      assert signed[i] in signed;
    }
  }

  // Of an unsigned request exactly these six headers stay, with their values.
  lemma UnsignedKeepsSix(headers: Headers, key: string)
    ensures key in Stripped(headers, false) <==>
              key in headers && (key == "host" || key == "x-amz-target" || key == "content-length"
                                 || key == "content-type" || key == "accept-encoding" || key == "content-encoding")
    ensures key in Stripped(headers, false) ==> Stripped(headers, false)[key] == headers[key]
  {
  }

  // Of a signed request that is understood these stay, the four that go with
  // the signature, and what it signs.
  lemma SignedKeepsTenAndList(headers: Headers, signed: seq<string>, key: string)
    requires ToPreserve(headers, true) == Some(signed)
    ensures key in Stripped(headers, true) <==>
              key in headers && (key in Stripped(headers, false) || key in signed || key == "authorization"
                                 || key == "x-amz-date" || key == "x-amz-user-agent" || key == "x-amz-security-token")
    ensures key in Stripped(headers, true) ==> Stripped(headers, true)[key] == headers[key]
  {
    UnsignedKeepsSix(headers, key);
  }

  // ----- A header as it goes over the wire -----

  lemma TwoNamesInOrder()
    ensures IsSignedList(["host", "x-amz-date"])
  {
    assert DifferAt("host", "x-amz-date", 0);
    DifferLess("host", "x-amz-date", 0);
  }

  lemma JoinOfThree(a: string, b: string, c: string, sep: char)
    ensures Join([a, b, c], sep) == a + [sep] + b + [sep] + c
  {
    assert [a, b, c][1..] == [b, c] && [b, c][1..] == [c];
    assert Join([b, c], sep) == b + [sep] + c;
  }

  const SIGNED := Parameter("SignedHeaders", "host" + [';'] + "x-amz-date")

  lemma SignedText()
    ensures Join(["host", "x-amz-date"], ';') == SIGNED.value
    ensures ParameterText(SIGNED) == "SignedHeaders" + ['='] + ("host" + [';'] + "x-amz-date")
  {
    assert ["host", "x-amz-date"][1..] == ["x-amz-date"];
  }

  lemma FormatOfThree(a: Parameter, b: Parameter, c: Parameter)
    ensures Format([a, b, c])
         == "AWS4-HMAC-SHA256 " + ParameterText(a) + "," + (" " + ParameterText(b)) + "," + (" " + ParameterText(c))
  {
    var ps := [a, b, c];
    assert Raws(ps)[0] == "" + ParameterText(a) == ParameterText(a);
    assert Raws(ps) == [ParameterText(a), " " + ParameterText(b), " " + ParameterText(c)];
    JoinOfThree(ParameterText(a), " " + ParameterText(b), " " + ParameterText(c), ',');
  }

  // The usual header, whatever its credential and its signature.
  lemma TheUsualHeader(credential: Parameter, signature: Parameter)
    requires IsOther(credential) && IsOther(signature)
    ensures SignedHeadersOf("AWS4-HMAC-SHA256 " + ParameterText(credential) + ","
                            + (" " + ("SignedHeaders" + ['='] + ("host" + [';'] + "x-amz-date"))) + ","
                            + (" " + ParameterText(signature)))
         == Some(["host", "x-amz-date"])
  {
    TwoNamesInOrder();
    SignedText();
    FormatThenParse([credential], ["host", "x-amz-date"], [signature]);
    assert [credential] + [SIGNED] + [signature] == [credential, SIGNED, signature];
    FormatOfThree(credential, SIGNED, signature);
  }

  predicate IsLowerCaseTokenChar(c: char) {
    c in "abcdefghijklmnopqrstuvwxyz" || c in "0123456789" || c in "!#$%&'*+-.^_`|~"
  }

  lemma Letters(c: char)
    ensures c in "abcdefghijklmnopqrstuvwxyz" <==> 'a' <= c <= 'z'
  {
    if 'a' <= c <= 'z' {
      assert c == "abcdefghijklmnopqrstuvwxyz"[c as int - 'a' as int];
    }
  }

  lemma Digits(c: char)
    ensures c in "0123456789" <==> '0' <= c <= '9'
  {
    if '0' <= c <= '9' {
      assert c == "0123456789"[c as int - '0' as int];
    }
  }

  lemma PunctuationIsNeither(c: char)
    requires c in "!#$%&'*+-.^_`|~"
    ensures !('A' <= c <= 'Z') && c != ' '
  {
  }

  lemma LowerCaseTokenChars(c: char)
    ensures IsTokenChar(c) <==> IsLowerCaseTokenChar(c)
    ensures IsTokenChar(c) ==> !('A' <= c <= 'Z') && c != ' '
  {
    Letters(c);
    Digits(c);
    if c in "!#$%&'*+-.^_`|~" {
      PunctuationIsNeither(c);
    }
  }

  lemma CanonicalChar(header: string, k: nat)
    requires IsCanonicalHeaderName(header) && k < |header|
    ensures IsLowerCaseTokenChar(header[k]) && !('A' <= header[k] <= 'Z') && header[k] != ' '
  {
    LowerCaseTokenChars(header[k]);
  }

  // Every accepted name is a lower-case token: an upper-case one, or a blank in
  // it, makes the whole request be left alone.
  lemma AcceptedNamesAreLowerCase(headers: Headers, signed: seq<string>, i: nat, k: nat)
    requires ToPreserve(headers, true) == Some(signed) && i < |signed| && k < |signed[i]|
    ensures IsLowerCaseTokenChar(signed[i][k]) && !('A' <= signed[i][k] <= 'Z') && signed[i][k] != ' '
  {
    AcceptedListSurvives(headers, signed);
    CanonicalChar(signed[i], k);
  }
}
