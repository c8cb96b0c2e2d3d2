/** Reading the Content-Encoding of a response. */
module ContentEncodings {
  import opened Splitting
  import opened Wrappers

  datatype Algorithm = Gzip | Deflate

  datatype EncodingError = LayerLimitExceeded(actual: nat, maximum: nat) | Unsupported(token: string)

  function ValidateLayerCount(count: nat, maximum: nat): Option<EncodingError> {
    if count > maximum then Some(LayerLimitExceeded(count, maximum)) else None
  }

  function ToAsciiLowercase(s: string): (r: string)
    ensures |r| == |s|
    ensures forall i :: 0 <= i < |s| ==> r[i] == if 'A' <= s[i] <= 'Z' then s[i] - 'A' + 'a' else s[i]
  {
    seq(|s|, i requires 0 <= i < |s| => if 'A' <= s[i] <= 'Z' then s[i] - 'A' + 'a' else s[i])
  }

  // Parameters after a semicolon are ignored.
  function FromContentEncoding(token: string): Option<Algorithm> {
    var name := ToAsciiLowercase(Trim(Split(token, ';')[0]));
    if name == "gzip" || name == "x-gzip" then Some(Gzip)
    else if name == "deflate" then Some(Deflate)
    else None
  }

  function TokenOf(piece: string): seq<string> {
    if Trim(piece) == "" then [] else [Trim(piece)]
  }

  // The tokens of one header value: its comma-separated pieces that are not blank.
  function TokensOf(pieces: seq<string>): seq<string> {
    if pieces == [] then [] else TokensOf(pieces[..|pieces| - 1]) + TokenOf(pieces[|pieces| - 1])
  }

  function Tokens(headerValues: seq<string>): seq<string> {
    if headerValues == [] then []
    else Tokens(headerValues[..|headerValues| - 1]) + TokensOf(Split(headerValues[|headerValues| - 1], ','))
  }

  ghost predicate Recognized(tokens: seq<string>, algorithms: seq<Algorithm>) {
    |algorithms| == |tokens| && forall i :: 0 <= i < |tokens| ==> FromContentEncoding(tokens[i]) == Some(algorithms[i])
  }

  predicate IsKnown(tokens: seq<string>, i: nat) {
    i < |tokens| && FromContentEncoding(tokens[i]).Some?
  }

  // Position `i` is the first that cannot be accepted: it is one layer too
  // many, or else its token is unknown.
  ghost predicate FailsAt(tokens: seq<string>, maximum: nat, error: EncodingError, i: nat) {
    && i < |tokens| && i <= maximum
    && (forall j :: 0 <= j < i ==> IsKnown(tokens, j))
    && (if i == maximum then error == LayerLimitExceeded(maximum + 1, maximum)
        else FromContentEncoding(tokens[i]).None? && error == Unsupported(tokens[i]))
  }

  ghost predicate Judged(tokens: seq<string>, maximum: nat, r: Result<seq<Algorithm>, EncodingError>) {
    match r
    case Ok(algorithms) => |tokens| <= maximum && Recognized(tokens, algorithms)
    case Err(error) => exists i: nat :: FailsAt(tokens, maximum, error, i)
  }

  // One more token.
  function Push(algorithms: seq<Algorithm>, token: string, maximum: nat): Result<seq<Algorithm>, EncodingError> {
    match ValidateLayerCount(|algorithms| + 1, maximum)
    case Some(error) => Err(error)
    case None =>
      match FromContentEncoding(token)
      case Some(algorithm) => Ok(algorithms + [algorithm])
      case None => Err(Unsupported(token))
  }

  lemma PushMeaning(tokens: seq<string>, algorithms: seq<Algorithm>, token: string, maximum: nat)
    requires |algorithms| <= maximum && Recognized(tokens, algorithms)
    ensures match Push(algorithms, token, maximum)
            case Ok(longer) => |longer| <= maximum && Recognized(tokens + [token], longer)
            case Err(error) => FailsAt(tokens + [token], maximum, error, |tokens|)
  {
  }

  method CollectEncodings(headerValues: seq<string>, maximum: nat) returns (r: Result<seq<Algorithm>, EncodingError>)
    ensures Judged(Tokens(headerValues), maximum, r)
  {
    r := Ok([]);
    for v := 0 to |headerValues|
      invariant r.Ok? && |r.value| <= maximum && Recognized(Tokens(headerValues[..v]), r.value)
    {
      assert headerValues[..v + 1][..v] == headerValues[..v];
      r := CollectLine(Tokens(headerValues[..v]), Split(headerValues[v], ','), r.value, maximum);
      if r.Err? {
        ghost var i: nat :| FailsAt(Tokens(headerValues[..v + 1]), maximum, r.error, i);
        TokensPrefix(headerValues, v + 1);
        FailsInLonger(Tokens(headerValues[..v + 1]), Tokens(headerValues), maximum, r.error, i);
        return;
      }
    }
    assert headerValues[..|headerValues|] == headerValues;
  }

  // The inner loop: the pieces of one header value.
  method CollectLine(ghost earlier: seq<string>, pieces: seq<string>, before: seq<Algorithm>, maximum: nat)
    returns (r: Result<seq<Algorithm>, EncodingError>)
    requires |before| <= maximum && Recognized(earlier, before)
    ensures match r
            case Ok(algorithms) => |algorithms| <= maximum && Recognized(earlier + TokensOf(pieces), algorithms)
            case Err(error) => exists i: nat :: FailsAt(earlier + TokensOf(pieces), maximum, error, i)
  {
    r := Ok(before);
    assert earlier + TokensOf(pieces[..0]) == earlier;
    for p := 0 to |pieces|
      invariant r.Ok? && |r.value| <= maximum && Recognized(earlier + TokensOf(pieces[..p]), r.value)
    {
      var token := Trim(pieces[p]);
      ghost var tokens := earlier + TokensOf(pieces[..p]);
      assert pieces[..p + 1][..p] == pieces[..p];
      if token == "" {
        assert earlier + TokensOf(pieces[..p + 1]) == tokens;
        continue;
      }
      assert earlier + TokensOf(pieces[..p + 1]) == tokens + [token];
      PushMeaning(tokens, r.value, token, maximum);
      r := Push(r.value, token, maximum);
      if r.Err? {
        TokensOfPrefix(pieces, p + 1);
        FailsInLonger(tokens + [token], earlier + TokensOf(pieces), maximum, r.error, |tokens|);
        return;
      }
    }
    assert pieces[..|pieces|] == pieces;
  }

  lemma {:induction false} TokensOfPrefix(pieces: seq<string>, n: nat)
    requires n <= |pieces|
    ensures TokensOf(pieces[..n]) <= TokensOf(pieces)
    decreases |pieces|
  {
    if n == |pieces| {
      assert pieces[..n] == pieces;
    } else {
      TokensOfPrefix(pieces[..|pieces| - 1], n);
      assert pieces[..|pieces| - 1][..n] == pieces[..n];
    }
  }

  lemma {:induction false} TokensPrefix(headerValues: seq<string>, n: nat)
    requires n <= |headerValues|
    ensures Tokens(headerValues[..n]) <= Tokens(headerValues)
    decreases |headerValues|
  {
    if n == |headerValues| {
      assert headerValues[..n] == headerValues;
    } else {
      TokensPrefix(headerValues[..|headerValues| - 1], n);
      assert headerValues[..|headerValues| - 1][..n] == headerValues[..n];
    }
  }

  lemma FailsInLonger(tokens: seq<string>, longer: seq<string>, maximum: nat, error: EncodingError, i: nat)
    requires FailsAt(tokens, maximum, error, i) && tokens <= longer
    ensures FailsAt(longer, maximum, error, i)
  {
    forall j | 0 <= j < i ensures IsKnown(longer, j) {
      assert IsKnown(tokens, j);
    }
  }

  lemma NothingFailsEarlier(
    tokens: seq<string>, maximum: nat, error: EncodingError, i: nat, other: EncodingError, j: nat)
    requires FailsAt(tokens, maximum, error, i) && FailsAt(tokens, maximum, other, j)
    ensures i <= j
  {
    assert j < i ==> IsKnown(tokens, j);
  }

  // The tokens and the limit decide the outcome.
  lemma JudgedUnique(
    tokens: seq<string>, maximum: nat,
    r: Result<seq<Algorithm>, EncodingError>, q: Result<seq<Algorithm>, EncodingError>)
    requires Judged(tokens, maximum, r) && Judged(tokens, maximum, q)
    ensures r == q
  {
    if r.Ok? && q.Ok? {
      assert forall i :: 0 <= i < |tokens| ==> Some(r.value[i]) == FromContentEncoding(tokens[i]) == Some(q.value[i]);
      assert r.value == q.value;
    }
    if r.Err? && q.Err? {
      var i: nat :| FailsAt(tokens, maximum, r.error, i);
      var j: nat :| FailsAt(tokens, maximum, q.error, j);
      NothingFailsEarlier(tokens, maximum, r.error, i, q.error, j);
      NothingFailsEarlier(tokens, maximum, q.error, j, r.error, i);
    }
  }

  // Repeated header lines mean what one line with all their values means
  // (section 5.3 of RFC 9110).
  lemma RepeatedLinesMeanOne(headerValues: seq<string>)
    requires headerValues != []
    ensures Tokens(headerValues) == Tokens([Join(headerValues, ',')])
  {
    JoinedTokens(headerValues);
    assert [Join(headerValues, ',')][..0] == [];
  }

  lemma {:induction false} JoinedTokens(headerValues: seq<string>)
    requires headerValues != []
    ensures Tokens(headerValues) == TokensOf(Split(Join(headerValues, ','), ','))
  {
    var n := |headerValues| - 1;
    var before, last := headerValues[..n], headerValues[n];
    if n == 0 {
      assert before == [];
    } else {
      calc {
        Tokens(headerValues);
        Tokens(before) + TokensOf(Split(last, ','));
        { JoinedTokens(before); }
        TokensOf(Split(Join(before, ','), ',')) + TokensOf(Split(last, ','));
        { SplitLines(Join(before, ','), last); }
        TokensOf(Split(Join(before, ',') + [','] + last, ','));
        { JoinSnoc(before, last, ','); assert before + [last] == headerValues; }
        TokensOf(Split(Join(headerValues, ','), ','));
      }
    }
  }

  lemma SplitLines(before: string, last: string)
    ensures TokensOf(Split(before + [','] + last, ',')) == TokensOf(Split(before, ',')) + TokensOf(Split(last, ','))
  {
    SplitConcat(before, last, ',');
    TokensOfConcat(Split(before, ','), Split(last, ','));
  }

  lemma {:induction false} TokensOfConcat(a: seq<string>, b: seq<string>)
    ensures TokensOf(a + b) == TokensOf(a) + TokensOf(b)
    decreases |b|
  {
    if b == [] {
      assert a + b == a;
    } else {
      var n := |b| - 1;
      calc {
        TokensOf(a + b);
        { assert (a + b)[..|a + b| - 1] == a + b[..n]; }
        TokensOf(a + b[..n]) + TokenOf(b[n]);
        { TokensOfConcat(a, b[..n]); }
        TokensOf(a) + TokensOf(b[..n]) + TokenOf(b[n]);
        TokensOf(a) + (TokensOf(b[..n]) + TokenOf(b[n]));
        TokensOf(a) + TokensOf(b);
      }
    }
  }

  // ----- Which name means what -----

  // The same letters, capital or not.
  predicate SameLetters(word: string, name: string) {
    |word| == |name|
    && forall i :: 0 <= i < |word| ==> word[i] == name[i] || ('A' <= word[i] <= 'Z' && word[i] - 'A' + 'a' == name[i])
  }

  // `token` is the name in any case, padded with white space, and followed or
  // not by parameters.
  ghost predicate Spells(token: string, name: string) {
    exists left: string, word: string, right: string, parameters: string ::
      SpelledAs(token, name, left, word, right, parameters)
  }

  ghost predicate SpelledAs(
    token: string, name: string, left: string, word: string, right: string, parameters: string)
  {
    && token == left + word + right + parameters
    && Blank(left) && Blank(right) && SameLetters(word, name)
    && (parameters == "" || parameters[0] == ';')
  }

  lemma SameLettersLowercase(word: string, name: string)
    requires forall i :: 0 <= i < |name| ==> !('A' <= name[i] <= 'Z')
    ensures SameLetters(word, name) <==> ToAsciiLowercase(word) == name
  {
    var lower := ToAsciiLowercase(word);
    if SameLetters(word, name) {
      forall i | 0 <= i < |word| ensures lower[i] == name[i] {
      }
    }
  }

  // The names of the model: lower-case, no white space, no semicolon.
  predicate PlainName(name: string) {
    name != "" && forall i :: 0 <= i < |name| ==> name[i] == '-' || 'a' <= name[i] <= 'z'
  }

  lemma WordHasNoSeparator(left: string, word: string, right: string, name: string)
    requires Blank(left) && Blank(right) && SameLetters(word, name) && PlainName(name)
    ensures ';' !in left + word + right && Trimmed(word) && word != ""
  {
    forall i | 0 <= i < |word| ensures word[i] != ';' && !IsWhitespace(word[i]) {
    }
  }

  lemma {:induction false} BeforeParameters(s: string, parameters: string)
    requires ';' !in s && (parameters == "" || parameters[0] == ';')
    ensures Split(s + parameters, ';')[0] == s
  {
    if parameters == "" {
      assert s + parameters == s;
      SplitNoSeparator(s, ';');
    } else {
      assert s + parameters == s + [';'] + parameters[1..];
      SplitPrefix(s, parameters[1..], ';');
    }
  }

  lemma FirstPiece(token: string) returns (parameters: string)
    ensures token == Split(token, ';')[0] + parameters && (parameters == "" || parameters[0] == ';')
  {
    var parts := Split(token, ';');
    JoinSplit(token, ';');
    parameters := if |parts| == 1 then "" else [';'] + Join(parts[1..], ';');
  }

  lemma SpellsName(token: string, name: string)
    requires PlainName(name)
    ensures Spells(token, name) <==> ToAsciiLowercase(Trim(Split(token, ';')[0])) == name
  {
    if left: string, word: string, right: string, parameters: string
      :| SpelledAs(token, name, left, word, right, parameters)
    {
      WordHasNoSeparator(left, word, right, name);
      BeforeParameters(left + word + right, parameters);
      TrimUndoes(left, word, right);
      SameLettersLowercase(word, name);
    }
    if ToAsciiLowercase(Trim(Split(token, ';')[0])) == name {
      var parameters := FirstPiece(token);
      var left, right := TrimCuts(Split(token, ';')[0]);
      SameLettersLowercase(Trim(Split(token, ';')[0]), name);
      assert SpelledAs(token, name, left, Trim(Split(token, ';')[0]), right, parameters);
    }
  }

  // "gzip" and "x-gzip" mean Gzip and "deflate" means Deflate, in any case,
  // padded or not, with or without parameters; no other name is accepted.
  lemma NamesAreExactly(token: string)
    ensures FromContentEncoding(token) == Some(Gzip) <==> Spells(token, "gzip") || Spells(token, "x-gzip")
    ensures FromContentEncoding(token) == Some(Deflate) <==> Spells(token, "deflate")
    ensures FromContentEncoding(token).None? <==>
              !Spells(token, "gzip") && !Spells(token, "x-gzip") && !Spells(token, "deflate")
  {
    SpellsName(token, "gzip");
    SpellsName(token, "x-gzip");
    SpellsName(token, "deflate");
  }

  // ----- Which tokens a response has -----

  ghost predicate Padded(piece: string, token: string) {
    exists left: string, right: string :: Blank(left) && Blank(right) && piece == left + token + right
  }

  lemma {:induction false} PaddedTokens(pieces: seq<string>, tokens: seq<string>)
    requires |pieces| == |tokens|
    requires forall i :: 0 <= i < |tokens| ==> tokens[i] != "" && Trimmed(tokens[i]) && Padded(pieces[i], tokens[i])
    ensures TokensOf(pieces) == tokens
  {
    if pieces != [] {
      var n := |pieces| - 1;
      PaddedTokens(pieces[..n], tokens[..n]);
      var left: string, right: string :| Blank(left) && Blank(right) && pieces[n] == left + tokens[n] + right;
      TrimUndoes(left, tokens[n], right);
      assert tokens == tokens[..n] + [tokens[n]];
    }
  }

  // Tokens written on lines, padded and separated by commas, are read back line
  // after line.
  lemma WrittenTokensAreRead(lines: seq<string>, pieces: seq<string>, tokens: seq<string>)
    requires |pieces| == |tokens| >= 1
    requires forall i :: 0 <= i < |tokens| ==> tokens[i] != "" && Trimmed(tokens[i]) && Padded(pieces[i], tokens[i])
    requires forall i :: 0 <= i < |pieces| ==> ',' !in pieces[i]
    ensures Tokens(lines + [Join(pieces, ',')]) == Tokens(lines) + tokens
  {
    SplitJoin(pieces, ',');
    PaddedTokens(pieces, tokens);
    assert (lines + [Join(pieces, ',')])[..|lines|] == lines;
  }
}
