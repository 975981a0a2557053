/** The stream aggregation inside `generate_response` of `src/model_manager.py`: the server
    answers with one JSON object per line; the fold keeps the non-empty `response` fields in
    stream order, concatenates and strips them, and reports a fixed message when nothing is
    left. The HTTP request is an oracle (the lines it streamed, or a request failure) and so
    is `json.loads` on one line. */
module ModelManager {
  import opened Outcomes
  import opened Text

  /** The `response` member of a decoded object: absent, a string, or some other JSON value,
      of which only its Python truthiness matters. */
  datatype Field = Missing | Str(text: string) | NonString(truthy: bool)

  /** `json.loads(line)`: a decoding error, or an object and its `response` member. */
  datatype Decoded = Malformed | Object(response: Field)

  type Decoder = string -> Decoded

  /** What `requests.post(..., stream=True)` gave: the streamed lines, or a RequestException. */
  datatype Http = Streamed(lines: seq<string>) | RequestFailed

  /** The three ways `generate_response` returns. */
  datatype Reply = Generated(text: string) | NoMeaningfulResponse | ConnectionFailed

  const ErrorMark := "Error:"
  const NoResponseMessage := ErrorMark + " No meaningful response received from Ollama."
  const ConnectionMessage := ErrorMark + " Unable to connect to Ollama. Check if the server is running."

  /** The string `generate_response` returns. */
  function Render(r: Reply): string {
    match r
    case Generated(text) => text
    case NoMeaningfulResponse => NoResponseMessage
    case ConnectionFailed => ConnectionMessage
  }

  /** `not line.strip()`. */
  predicate IsBlank(line: string) {
    Strip(line) == []
  }

  /** What one line appends to `generated_text`: its `response` when the line is not blank,
      decodes, and the member is present and truthy. */
  function Piece(line: string, decode: Decoder): Option<Field> {
    if IsBlank(line) then None
    else
      match decode(line)
      case Malformed => None
      case Object(field) =>
        match field
        case Missing => None
        case Str(text) => if text == [] then None else Some(field)
        case NonString(truthy) => if truthy then Some(field) else None
  }

  /** The strings one line adds to `generated_text`. */
  function Contribution(line: string, decode: Decoder): (added: seq<string>)
    ensures |added| <= 1
  {
    match Piece(line, decode)
    case Some(Str(text)) => [text]
    case _ => []
  }

  /** The strings appended to `generated_text`, in stream order. */
  function Pieces(lines: seq<string>, decode: Decoder): (pieces: seq<string>)
    ensures forall k :: 0 <= k < |pieces| ==> pieces[k] != []
  {
    if |lines| == 0 then []
    else Pieces(lines[..|lines| - 1], decode) + Contribution(lines[|lines| - 1], decode)
  }

  /** Whether a non-string value was appended, which makes `"".join` raise TypeError. */
  predicate Poisoned(lines: seq<string>, decode: Decoder) {
    exists k :: 0 <= k < |lines| && Piece(lines[k], decode) == Some(NonString(true))
  }

  /** The reference definition of the fold: what `generate_response` returns for a response. */
  function Aggregate(http: Http, decode: Decoder): (r: Result<Reply>)
    ensures http.RequestFailed? ==> r == Returned(ConnectionFailed)
    ensures r.Crashed? <==> http.Streamed? && Poisoned(http.lines, decode)
    ensures r.Returned? && r.value.Generated? ==> r.value.text != [] && Trimmed(r.value.text)
    ensures http.Streamed? && Pieces(http.lines, decode) == [] && !Poisoned(http.lines, decode) ==>
              r == Returned(NoMeaningfulResponse)
  {
    match http
    case RequestFailed => Returned(ConnectionFailed)
    case Streamed(lines) =>
      if Poisoned(lines, decode) then Crashed(TypeError("sequence item: expected str instance"))
      else
        var text := Strip(Join(Pieces(lines, decode), ""));
        if text == [] then Returned(NoMeaningfulResponse) else Returned(Generated(text))
  }

  /** The body of the loop over `response.iter_lines()` for one line: what it appends, and
      whether what it appends is not a string. */
  method ReadLine(line: string, decode: Decoder) returns (added: seq<string>, nonString: bool)
    ensures added == Contribution(line, decode)
    ensures nonString <==> Piece(line, decode) == Some(NonString(true))
  {
    added, nonString := [], false;
    if IsBlank(line) {
      return;
    }
    match decode(line)
    case Malformed =>
    case Object(field) =>
      match field
      case Missing =>
      case Str(text) =>
        if text != [] {
          added := [text];
        }
      case NonString(truthy) =>
        nonString := truthy;
  }

  /** The loop over the streamed lines. */
  method ReadStream(lines: seq<string>, decode: Decoder) returns (generated: seq<string>, poisoned: bool)
    ensures generated == Pieces(lines, decode)
    ensures poisoned <==> Poisoned(lines, decode)
  {
    generated, poisoned := [], false;
    var i := 0;
    while i < |lines|
      invariant 0 <= i <= |lines|
      invariant generated == Pieces(lines[..i], decode)
      invariant poisoned <==> Poisoned(lines[..i], decode)
    {
      var added, nonString := ReadLine(lines[i], decode);
      StreamSnoc(lines, i, decode);
      generated := generated + added;
      poisoned := poisoned || nonString;
      i := i + 1;
    }
    assert lines[..i] == lines;
  }

  /** `generate_response` once the request has been sent, shown to compute the reference fold. */
  method GenerateResponse(http: Http, decode: Decoder) returns (r: Result<Reply>)
    ensures r == Aggregate(http, decode)
  {
    if http.RequestFailed? {
      return Returned(ConnectionFailed);
    }
    var generated, poisoned := ReadStream(http.lines, decode);
    if poisoned {
      return Crashed(TypeError("sequence item: expected str instance"));
    }
    var text := Strip(Join(generated, ""));
    if text == [] {
      return Returned(NoMeaningfulResponse);
    }
    return Returned(Generated(text));
  }

  /** Reading one more line of the stream. */
  lemma StreamSnoc(lines: seq<string>, i: nat, decode: Decoder)
    requires i < |lines|
    ensures Pieces(lines[..i + 1], decode) == Pieces(lines[..i], decode) + Contribution(lines[i], decode)
    ensures Poisoned(lines[..i + 1], decode) <==>
              Poisoned(lines[..i], decode) || Piece(lines[i], decode) == Some(NonString(true))
  {
    assert lines[..i + 1][..i] == lines[..i];
    assert lines[..i + 1] == lines[..i] + [lines[i]];
    PoisonedAppend(lines[..i], [lines[i]], decode);
    assert [lines[i]][0] == lines[i];
  }

  /** Pieces of a stream split in two are the pieces of each part, in order. */
  lemma {:induction false} PiecesAppend(a: seq<string>, b: seq<string>, decode: Decoder)
    ensures Pieces(a + b, decode) == Pieces(a, decode) + Pieces(b, decode)
    decreases |b|
  {
    if |b| == 0 {
      assert a + b == a;
    } else {
      var b' := b[..|b| - 1];
      assert (a + b)[..|a + b| - 1] == a + b';
      assert (a + b)[|a + b| - 1] == b[|b| - 1];
      PiecesAppend(a, b', decode);
    }
  }

  /** A line that contributes nothing: blank, undecodable, or an object whose `response` is
      absent or falsy. */
  predicate Inert(line: string, decode: Decoder) {
    Piece(line, decode) == None
  }

  lemma PoisonedAppend(a: seq<string>, b: seq<string>, decode: Decoder)
    ensures Poisoned(a + b, decode) <==> Poisoned(a, decode) || Poisoned(b, decode)
  {
    if Poisoned(a + b, decode) {
      var k :| 0 <= k < |a + b| && Piece((a + b)[k], decode) == Some(NonString(true));
      if k < |a| {
        assert (a + b)[k] == a[k];
      } else {
        assert (a + b)[k] == b[k - |a|];
      }
    }
    if Poisoned(a, decode) {
      var k :| 0 <= k < |a| && Piece(a[k], decode) == Some(NonString(true));
      assert (a + b)[k] == a[k];
    }
    if Poisoned(b, decode) {
      var k :| 0 <= k < |b| && Piece(b[k], decode) == Some(NonString(true));
      assert (a + b)[|a| + k] == b[k];
    }
  }

  /** Dropping an inert line anywhere in the stream changes nothing: blank lines and lines that
      fail to decode are skipped without ending the fold. */
  lemma InertLinesDoNotMatter(before: seq<string>, line: string, after: seq<string>, decode: Decoder)
    requires Inert(line, decode)
    ensures Aggregate(Streamed(before + [line] + after), decode) == Aggregate(Streamed(before + after), decode)
  {
    InertPieces(before, line, after, decode);
    InertNotPoisoned(before, line, after, decode);
  }

  lemma InertPieces(before: seq<string>, line: string, after: seq<string>, decode: Decoder)
    requires Inert(line, decode)
    ensures Pieces(before + [line] + after, decode) == Pieces(before + after, decode)
  {
    assert Pieces([line], decode) == [] by {
      assert [line][..0] == [];
      assert Contribution(line, decode) == [];
    }
    PiecesAppend(before, [line], decode);
    assert Pieces(before + [line], decode) == Pieces(before, decode);
    PiecesAppend(before + [line], after, decode);
    PiecesAppend(before, after, decode);
  }

  lemma InertNotPoisoned(before: seq<string>, line: string, after: seq<string>, decode: Decoder)
    requires Inert(line, decode)
    ensures Poisoned(before + [line] + after, decode) == Poisoned(before + after, decode)
  {
    PoisonedAppend(before + [line], after, decode);
    PoisonedAppend(before, [line], decode);
    PoisonedAppend(before, after, decode);
    assert !Poisoned([line], decode) by {
      assert [line][0] == line;
    }
  }

  /** Blank lines and undecodable lines are inert. */
  lemma BlankAndMalformedAreInert(line: string, decode: Decoder)
    requires IsBlank(line) || decode(line) == Malformed
    ensures Inert(line, decode)
  {
  }

  /** With string responses only, the reply is the stripped concatenation of the non-empty
      responses in stream order, or the fixed message when that is empty. */
  lemma RepliesConcatenateInOrder(a: seq<string>, b: seq<string>, decode: Decoder)
    requires !Poisoned(a + b, decode)
    ensures var joined := Strip(Join(Pieces(a, decode) + Pieces(b, decode), ""));
            Aggregate(Streamed(a + b), decode) ==
              if joined == [] then Returned(NoMeaningfulResponse) else Returned(Generated(joined))
  {
    PiecesAppend(a, b, decode);
  }

  /** The unit-test stream: a single line whose `response` is "Test output" gives that text. */
  lemma TestOutput(line: string, decode: Decoder)
    requires !IsBlank(line) && decode(line) == Object(Str(['T', 'e', 's', 't', ' ', 'o', 'u', 't', 'p', 'u', 't']))
    ensures Aggregate(Streamed([line]), decode) == Returned(Generated("Test output"))
  {
    var text := ['T', 'e', 's', 't', ' ', 'o', 'u', 't', 'p', 'u', 't'];
    assert [line][..0] == [];
    assert Pieces([line], decode) == [text];
    assert !Poisoned([line], decode) by {
      assert [line][0] == line;
    }
    assert Join([text], "") == text;
    StripTrimmed(text);
    assert text == "Test output";
  }
}
