/**
 Converting a conversation into Converse messages: tool results are grouped, empty messages
 dropped, and one cache point placed (extensions/amazon-bedrock/stream.runtime.ts).

 String trimming, surrogate repair, base64 and the media placeholder are parameters.
 */
module Messages {
  import opened Prelude

  datatype Part =
    | TextPart(text: string)
    | ImagePart(mimeType: string, data: string)
    | CallPart(id: string, name: string, arguments: string)
    | ThinkingPart(thinking: string, signature: string, redacted: bool)
    | OtherPart

  datatype Message =
    | User(plain: Option<string>, parts: seq<Part>, carrier: bool)
    | Assistant(parts: seq<Part>)
    | ToolOutput(callId: string, parts: seq<Part>, isError: bool)
    | OtherRole

  datatype Block =
    | Text(text: string)
    | Image(format: string, bytes: Bytes)
    | ToolUse(id: string, name: string, arguments: string)
    | Reasoning(text: string, signature: string)
    | RedactedReasoning(bytes: Bytes)
    | ToolResult(callId: string, content: seq<Block>, isError: bool)
    | CachePoint(oneHour: bool)

  datatype Role = UserRole | AssistantRole

  datatype OutMessage = OutMessage(role: Role, content: seq<Block>)

  datatype Failure = UnknownImageType | MalformedImage | MissingSignature | MalformedSignature

  datatype Retention = NoRetention | Short | Long

  /** What the conversion takes from libraries and from the model. */
  datatype Library = Library(
    trim: string -> string,
    sanitize: string -> string,
    decode: string -> Option<Bytes>,
    placeholder: seq<Part> -> Option<string>,
    signatures: bool,
    caching: bool
  )

  // ---------------------------------------------------------------- single parts

  function ImageFormat(mimeType: string): Option<string> {
    if mimeType == "image/jpeg" || mimeType == "image/jpg" then Some("jpeg")
    else if mimeType == "image/png" then Some("png")
    else if mimeType == "image/gif" then Some("gif")
    else if mimeType == "image/webp" then Some("webp")
    else None
  }

  function ImageBlock(lib: Library, mimeType: string, data: string): Result<Option<Block>, Failure> {
    var format, bytes := ImageFormat(mimeType), lib.decode(data);
    if format.None? then Err(UnknownImageType)
    else if bytes.None? then Err(MalformedImage)
    else Ok(Some(Image(format.value, bytes.value)))
  }

  function ThinkingBlock(
      lib: Library, thinking: string, signature: string, redacted: bool): (r: Result<Option<Block>, Failure>)
    ensures r.Ok? && r.value.Some? ==> !r.value.value.CachePoint?
  {
    var normalized := lib.trim(signature);
    var native := lib.signatures && normalized != "" && normalized != "reasoning_content";
    if redacted then
      if !lib.signatures then Ok(None)
      else if signature == "" then Err(MissingSignature)
      else
        match lib.decode(signature)
        case None => Err(MalformedSignature)
        case Some(bytes) => Ok(Some(RedactedReasoning(bytes)))
    else if lib.trim(thinking) == "" && !native then Ok(None)
    else if !lib.signatures then Ok(Some(Text(lib.sanitize(thinking))))
    else if normalized == "reasoning_content" then Ok(None)
    else if signature == "" || normalized == "" then Ok(Some(Text(lib.sanitize(thinking))))
    else Ok(Some(Reasoning(thinking, signature)))
  }

  /** A part of a message of this kind: a block, nothing, or a failure. */
  function ConvertPart(lib: Library, m: Message, part: Part): (r: Result<Option<Block>, Failure>)
    ensures r.Ok? && r.value.Some? ==> !r.value.value.CachePoint?
  {
    match part
    case TextPart(text) =>
      if m.Assistant? && lib.trim(text) == "" then Ok(None) else Ok(Some(Text(lib.sanitize(text))))
    case ImagePart(mimeType, data) =>
      if m.Assistant? || (m.ToolOutput? && lib.placeholder([part]).None?) then Ok(None)
      else ImageBlock(lib, mimeType, data)
    case CallPart(id, name, arguments) => if m.Assistant? then Ok(Some(ToolUse(id, name, arguments))) else Ok(None)
    case ThinkingPart(thinking, signature, redacted) =>
      if m.Assistant? then ThinkingBlock(lib, thinking, signature, redacted) else Ok(None)
    case OtherPart => Ok(None)
  }

  function ConvertParts(lib: Library, m: Message, parts: seq<Part>): Result<seq<Block>, Failure> {
    if parts == [] then Ok([])
    else
      match ConvertParts(lib, m, parts[..|parts| - 1])
      case Err(e) => Err(e)
      case Ok(blocks) =>
        match ConvertPart(lib, m, parts[|parts| - 1])
        case Err(e) => Err(e)
        case Ok(block) => Ok(blocks + if block.Some? then [block.value] else [])
  }

  lemma {:induction false} NoCachePointInParts(lib: Library, m: Message, parts: seq<Part>)
    ensures var r := ConvertParts(lib, m, parts);
            r.Ok? ==> forall k :: 0 <= k < |r.value| ==> !r.value[k].CachePoint?
  {
    if parts != [] {
      NoCachePointInParts(lib, m, parts[..|parts| - 1]);
      var older, last := ConvertParts(lib, m, parts[..|parts| - 1]), ConvertPart(lib, m, parts[|parts| - 1]);
      if older.Ok? && last.Ok? {
        assert ConvertParts(lib, m, parts).value == older.value + if last.value.Some? then [last.value.value] else [];
      }
    }
  }

  function ResultBlock(lib: Library, m: Message): Result<Block, Failure>
    requires m.ToolOutput?
  {
    match ConvertParts(lib, m, m.parts)
    case Err(e) => Err(e)
    case Ok(blocks) =>
      var missing := match lib.placeholder(m.parts) case Some(text) => text case None => "(no output)";
      Ok(ToolResult(m.callId, if blocks != [] then blocks else [Text(missing)], m.isError))
  }

  // ---------------------------------------------------------------- one message after the other

  /** An output message; it is volatile when it carries transient runtime context. */
  datatype Piece = Piece(message: OutMessage, volatile: bool)

  /** A user or assistant message by itself; none when nothing of it is left. */
  function SinglePiece(lib: Library, m: Message): Result<Option<Piece>, Failure>
    requires !m.ToolOutput?
  {
    if m.OtherRole? then Ok(None)
    else if m.User? && m.plain.Some? then
      Ok(Some(Piece(OutMessage(UserRole, [Text(lib.sanitize(m.plain.value))]), m.carrier)))
    else
      match ConvertParts(lib, m, m.parts)
      case Err(e) => Err(e)
      case Ok(blocks) =>
        if blocks == [] then Ok(None)
        else if m.User? then Ok(Some(Piece(OutMessage(UserRole, blocks), m.carrier)))
        else Ok(Some(Piece(OutMessage(AssistantRole, blocks), false)))
  }

  predicate Continues(ms: seq<Message>, k: nat) {
    0 < k < |ms| && ms[k].ToolOutput? && ms[k - 1].ToolOutput?
  }

  /** One message more: a tool result joins the message of the tool result right before it. */
  function Extend(lib: Library, pieces: seq<Piece>, m: Message, joins: bool): Result<seq<Piece>, Failure> {
    if m.ToolOutput? then
      match ResultBlock(lib, m)
      case Err(e) => Err(e)
      case Ok(block) =>
        if joins && pieces != [] then
          var last := pieces[|pieces| - 1];
          Ok(pieces[..|pieces| - 1] + [last.(message := last.message.(content := last.message.content + [block]))])
        else Ok(pieces + [Piece(OutMessage(UserRole, [block]), false)])
    else
      match SinglePiece(lib, m)
      case Err(e) => Err(e)
      case Ok(piece) => Ok(pieces + if piece.Some? then [piece.value] else [])
  }

  /** The conversion without look-ahead and without the cache point. */
  function Pieces(lib: Library, ms: seq<Message>): Result<seq<Piece>, Failure> {
    if ms == [] then Ok([])
    else
      match Pieces(lib, ms[..|ms| - 1])
      case Err(e) => Err(e)
      case Ok(pieces) => Extend(lib, pieces, ms[|ms| - 1], Continues(ms, |ms| - 1))
  }

  lemma {:induction false} PiecesStep(lib: Library, ms: seq<Message>, k: nat)
    requires k < |ms|
    ensures Pieces(lib, ms[..k + 1]) ==
            match Pieces(lib, ms[..k]) {
              case Err(e) => Err(e)
              case Ok(pieces) => Extend(lib, pieces, ms[k], Continues(ms, k))
            }
  {
    assert ms[..k + 1][..k] == ms[..k];
  }

  lemma {:induction false} FailurePersists(lib: Library, ms: seq<Message>, k: nat)
    requires k <= |ms| && Pieces(lib, ms[..k]).Err?
    ensures Pieces(lib, ms) == Pieces(lib, ms[..k])
    decreases |ms| - k
  {
    if k < |ms| {
      PiecesStep(lib, ms, k);
      FailurePersists(lib, ms, k + 1);
    } else {
      assert ms[..k] == ms;
    }
  }

  // ---------------------------------------------------------------- runs of tool results

  function Joined(a: Result<seq<Piece>, Failure>, b: Result<seq<Piece>, Failure>): Result<seq<Piece>, Failure> {
    if a.Err? then a else if b.Err? then b else Ok(a.value + b.value)
  }

  /** After a tool result the last piece is the user message that holds it. */
  lemma {:induction false} PieceOfLastResult(lib: Library, ms: seq<Message>)
    requires ms != [] && ms[|ms| - 1].ToolOutput? && Pieces(lib, ms).Ok?
    ensures Pieces(lib, ms).value != []
  {
  }

  /** Cut anywhere but inside a run, the conversion is the concatenation of the two conversions. */
  lemma {:induction false} SplitBetweenRuns(lib: Library, a: seq<Message>, b: seq<Message>)
    requires a == [] || b == [] || !(a[|a| - 1].ToolOutput? && b[0].ToolOutput?)
    ensures Pieces(lib, a + b) == Joined(Pieces(lib, a), Pieces(lib, b))
  {
    if b == [] {
      assert a + b == a;
      assert Pieces(lib, a).Ok? ==> Pieces(lib, a).value + [] == Pieces(lib, a).value;
    } else {
      var init := b[..|b| - 1];
      SplitBetweenRuns(lib, a, init);
      SplitStep(lib, a, init, b[|b| - 1]);
      assert b == init + [b[|b| - 1]];
      assert a + b == a + init + [b[|b| - 1]];
    }
  }

  lemma {:induction false} PiecesPush(lib: Library, ms: seq<Message>, m: Message)
    ensures Pieces(lib, ms + [m]) ==
            match Pieces(lib, ms) {
              case Err(e) => Err(e)
              case Ok(pieces) => Extend(lib, pieces, m, Continues(ms + [m], |ms|))
            }
  {
    assert (ms + [m])[..|ms|] == ms;
  }

  lemma {:induction false} SplitStep(lib: Library, a: seq<Message>, init: seq<Message>, m: Message)
    requires Pieces(lib, a + init) == Joined(Pieces(lib, a), Pieces(lib, init))
    requires a == [] || init != [] || !(a[|a| - 1].ToolOutput? && m.ToolOutput?)
    ensures Pieces(lib, a + init + [m]) == Joined(Pieces(lib, a), Pieces(lib, init + [m]))
  {
    PiecesPush(lib, a + init, m);
    PiecesPush(lib, init, m);
    var joins := Continues(init + [m], |init|);
    assert init != [] ==> (a + init)[|a + init| - 1] == init[|init| - 1];
    assert Continues(a + init + [m], |a + init|) == joins;
    if Pieces(lib, a).Ok? && Pieces(lib, init).Ok? {
      if joins {
        PieceOfLastResult(lib, init);
      }
      ExtendAfter(lib, Pieces(lib, a).value, Pieces(lib, init).value, m, joins);
    }
  }

  lemma {:induction false} ExtendAfter(lib: Library, before: seq<Piece>, pieces: seq<Piece>, m: Message, joins: bool)
    requires joins ==> pieces != []
    ensures Extend(lib, before + pieces, m, joins) == Joined(Ok(before), Extend(lib, pieces, m, joins))
  {
    if m.ToolOutput? {
      if ResultBlock(lib, m).Ok? {
        assert joins ==> (before + pieces)[..|before + pieces| - 1] == before + pieces[..|pieces| - 1];
        assert Extend(lib, before + pieces, m, joins).value == before + Extend(lib, pieces, m, joins).value;
      }
    } else if SinglePiece(lib, m).Ok? {
      assert Extend(lib, before + pieces, m, joins).value == before + Extend(lib, pieces, m, joins).value;
    }
  }

  /** The blocks of the tool results of a list, in order. */
  function ResultBlocks(lib: Library, ms: seq<Message>): Result<seq<Block>, Failure> {
    if ms == [] then Ok([])
    else
      match ResultBlocks(lib, ms[..|ms| - 1])
      case Err(e) => Err(e)
      case Ok(blocks) =>
        var m := ms[|ms| - 1];
        if !m.ToolOutput? then Ok(blocks)
        else
          match ResultBlock(lib, m)
          case Err(e) => Err(e)
          case Ok(block) => Ok(blocks + [block])
  }

  predicate AllResults(ms: seq<Message>) {
    forall k :: 0 <= k < |ms| ==> ms[k].ToolOutput?
  }

  lemma {:induction false} JoinLast(lib: Library, before: seq<Piece>, blocks: seq<Block>, m: Message)
    requires m.ToolOutput? && ResultBlock(lib, m).Ok?
    ensures Extend(lib, before + [Piece(OutMessage(UserRole, blocks), false)], m, true)
            == Ok(before + [Piece(OutMessage(UserRole, blocks + [ResultBlock(lib, m).value]), false)])
  {
    var pieces := before + [Piece(OutMessage(UserRole, blocks), false)];
    assert pieces[..|pieces| - 1] == before;
  }

  /** A run by itself is one user message with its results in order. */
  lemma {:induction false} RunAlone(lib: Library, run: seq<Message>)
    requires run != [] && AllResults(run)
    ensures match ResultBlocks(lib, run) {
              case Err(e) => Pieces(lib, run) == Err(e)
              case Ok(blocks) => Pieces(lib, run) == Ok([Piece(OutMessage(UserRole, blocks), false)])
            }
  {
    var init, m := run[..|run| - 1], run[|run| - 1];
    if init != [] {
      RunAlone(lib, init);
      if ResultBlocks(lib, init).Ok? && ResultBlock(lib, m).Ok? {
        var blocks, joined := ResultBlocks(lib, init).value, ResultBlocks(lib, run).value;
        JoinLast(lib, [], blocks, m);
        assert Continues(run, |run| - 1);
        assert [] + [Piece(OutMessage(UserRole, blocks), false)] == [Piece(OutMessage(UserRole, blocks), false)];
        assert [] + [Piece(OutMessage(UserRole, joined), false)] == [Piece(OutMessage(UserRole, joined), false)];
      }
    } else if ResultBlock(lib, m).Ok? {
      var block := ResultBlock(lib, m).value;
      assert Pieces(lib, init) == Ok([]) && ResultBlocks(lib, init) == Ok([]);
      assert [] + [block] == [block];
      assert [] + [Piece(OutMessage(UserRole, [block]), false)] == [Piece(OutMessage(UserRole, [block]), false)];
      assert Extend(lib, [], m, false) == Ok([Piece(OutMessage(UserRole, [block]), false)]);
    }
  }

  /**
   Wherever a maximal run of tool results stands, it becomes exactly one user message, with
   every result once and in order, between what the two sides become by themselves.
   */
  lemma {:induction false} RunBecomesOneMessage(
      lib: Library, before: seq<Message>, run: seq<Message>, after: seq<Message>)
    requires run != [] && AllResults(run)
    requires before != [] ==> !before[|before| - 1].ToolOutput?
    requires after != [] ==> !after[0].ToolOutput?
    requires Pieces(lib, before + run + after).Ok?
    ensures ResultBlocks(lib, run).Ok? && Pieces(lib, before).Ok? && Pieces(lib, after).Ok?
    ensures Pieces(lib, before + run + after).value ==
            Pieces(lib, before).value
            + [Piece(OutMessage(UserRole, ResultBlocks(lib, run).value), false)]
            + Pieces(lib, after).value
  {
    assert (before + run)[|before + run| - 1] == run[|run| - 1];
    SplitBetweenRuns(lib, before + run, after);
    SplitBetweenRuns(lib, before, run);
    RunAlone(lib, run);
  }

  /** A user or assistant message stands alone, whatever surrounds it. */
  lemma {:induction false} SingleStandsAlone(lib: Library, before: seq<Message>, m: Message, after: seq<Message>)
    requires !m.ToolOutput? && Pieces(lib, before + [m] + after).Ok?
    ensures Pieces(lib, before).Ok? && SinglePiece(lib, m).Ok? && Pieces(lib, after).Ok?
    ensures Pieces(lib, before + [m] + after).value ==
            Pieces(lib, before).value
            + (if SinglePiece(lib, m).value.Some? then [SinglePiece(lib, m).value.value] else [])
            + Pieces(lib, after).value
  {
    assert (before + [m])[|before|] == m;
    SplitBetweenRuns(lib, before + [m], after);
    SplitBetweenRuns(lib, before, [m]);
    assert [m][..0] == [];
    assert Pieces(lib, [m]) == Extend(lib, [], m, false);
  }

  ghost predicate NoneEmpty(pieces: seq<Piece>) {
    forall k :: 0 <= k < |pieces| ==> pieces[k].message.content != []
  }

  /** Bedrock refuses empty messages, and gets none. */
  lemma {:induction false} NoEmptyMessage(lib: Library, ms: seq<Message>)
    requires Pieces(lib, ms).Ok?
    ensures NoneEmpty(Pieces(lib, ms).value)
  {
    if ms != [] {
      NoEmptyMessage(lib, ms[..|ms| - 1]);
    }
  }

  // ---------------------------------------------------------------- the cache point

  ghost predicate Stable(pieces: seq<Piece>, p: nat) {
    p < |pieces| && forall q :: 0 <= q <= p ==> !pieces[q].volatile
  }

  /** The last user message with nothing volatile up to it. */
  ghost predicate IsAnchor(pieces: seq<Piece>, p: nat) {
    && Stable(pieces, p) && pieces[p].message.role == UserRole
    && forall q :: p < q < |pieces| && pieces[q].message.role == UserRole ==> !Stable(pieces, q)
  }

  predicate CachePointWanted(lib: Library, retention: Retention, pieces: seq<Piece>) {
    retention != NoRetention && lib.caching && pieces != [] && pieces[|pieces| - 1].message.role == UserRole
  }

  ghost predicate SameMessage(out: OutMessage, piece: Piece) {
    out == piece.message
  }

  ghost predicate Unanchored(pieces: seq<Piece>, out: seq<OutMessage>) {
    |out| == |pieces| && forall k :: 0 <= k < |pieces| ==> SameMessage(out[k], pieces[k])
  }

  /** The messages with a cache point at the end of message `p`. */
  ghost predicate Anchored(pieces: seq<Piece>, out: seq<OutMessage>, p: nat, retention: Retention) {
    && |out| == |pieces| && p < |pieces|
    && (forall k :: 0 <= k < |pieces| && k != p ==> SameMessage(out[k], pieces[k]))
    && out[p] == pieces[p].message.(content := pieces[p].message.content + [CachePoint(retention == Long)])
  }

  /** What the converter returns for these pieces. */
  ghost predicate Cached(lib: Library, retention: Retention, pieces: seq<Piece>, out: seq<OutMessage>) {
    if CachePointWanted(lib, retention, pieces) && exists p: nat :: IsAnchor(pieces, p)
    then exists p: nat :: IsAnchor(pieces, p) && Anchored(pieces, out, p, retention)
    else Unanchored(pieces, out)
  }

  function CachePoints(content: seq<Block>): nat {
    if content == [] then 0
    else CachePoints(content[..|content| - 1]) + if content[|content| - 1].CachePoint? then 1 else 0
  }

  lemma {:induction false} NoCachePoints(content: seq<Block>)
    requires forall k :: 0 <= k < |content| ==> !content[k].CachePoint?
    ensures CachePoints(content) == 0
  {
    if content != [] {
      NoCachePoints(content[..|content| - 1]);
    }
  }

  ghost predicate PointFree(pieces: seq<Piece>) {
    forall k :: 0 <= k < |pieces| ==> CachePoints(pieces[k].message.content) == 0
  }

  lemma {:induction false} CachePointsPush(content: seq<Block>, b: Block)
    ensures CachePoints(content + [b]) == CachePoints(content) + if b.CachePoint? then 1 else 0
  {
    assert (content + [b])[..|content|] == content;
  }

  lemma {:induction false} SinglePiecePointFree(lib: Library, m: Message)
    requires !m.ToolOutput? && SinglePiece(lib, m).Ok? && SinglePiece(lib, m).value.Some?
    ensures CachePoints(SinglePiece(lib, m).value.value.message.content) == 0
  {
    var content := SinglePiece(lib, m).value.value.message.content;
    if !(m.User? && m.plain.Some?) {
      NoCachePointInParts(lib, m, m.parts);
      assert content == ConvertParts(lib, m, m.parts).value;
    }
    NoCachePoints(content);
  }

  lemma {:induction false} PiecesPointFree(lib: Library, ms: seq<Message>)
    requires Pieces(lib, ms).Ok?
    ensures PointFree(Pieces(lib, ms).value)
  {
    if ms != [] {
      var older, m := ms[..|ms| - 1], ms[|ms| - 1];
      PiecesPointFree(lib, older);
      var pieces := Pieces(lib, older).value;
      if m.ToolOutput? {
        var block := ResultBlock(lib, m).value;
        CachePointsPush([], block);
        assert [] + [block] == [block];
        if pieces != [] {
          CachePointsPush(pieces[|pieces| - 1].message.content, block);
        }
      } else if SinglePiece(lib, m).value.Some? {
        SinglePiecePointFree(lib, m);
      }
    }
  }

  lemma {:induction false} PointMeansAnchored(
      lib: Library, retention: Retention, pieces: seq<Piece>, out: seq<OutMessage>, p: nat)
    requires PointFree(pieces) && Cached(lib, retention, pieces, out)
    ensures p < |out| && CachePoints(out[p].content) > 0 ==>
              CachePointWanted(lib, retention, pieces) && IsAnchor(pieces, p) && Anchored(pieces, out, p, retention)
  {
    if p < |out| {
      if Unanchored(pieces, out) {
        assert SameMessage(out[p], pieces[p]);
      } else {
        var a: nat :| IsAnchor(pieces, a) && Anchored(pieces, out, a, retention);
        assert p != a ==> SameMessage(out[p], pieces[p]);
      }
    }
  }

  /**
   The output holds at most one cache point; it closes a user message; everything up to it
   is free of runtime context; and no later user message could have held it.
   */
  lemma {:induction false} CachedPrefixIsStable(
      lib: Library, retention: Retention, ms: seq<Message>, out: seq<OutMessage>, p: nat, q: nat)
    requires Pieces(lib, ms).Ok? && Cached(lib, retention, Pieces(lib, ms).value, out)
    requires p < |out| && CachePoints(out[p].content) > 0
    ensures CachePoints(out[p].content) == 1 && out[p].role == UserRole
    ensures out[p].content[|out[p].content| - 1] == CachePoint(retention == Long)
    ensures retention != NoRetention && lib.caching && out[|out| - 1].role == UserRole
    ensures Stable(Pieces(lib, ms).value, p)
    ensures p < q < |out| && out[q].role == UserRole ==> !Stable(Pieces(lib, ms).value, q)
    ensures q < |out| && q != p ==> CachePoints(out[q].content) == 0
  {
    var pieces := Pieces(lib, ms).value;
    PiecesPointFree(lib, ms);
    PointMeansAnchored(lib, retention, pieces, out, p);
    PointMeansAnchored(lib, retention, pieces, out, q);
    CachePointsPush(pieces[p].message.content, CachePoint(retention == Long));
    var last := |out| - 1;
    assert last != p ==> SameMessage(out[last], pieces[last]);
    assert q < |out| && q != p ==> SameMessage(out[q], pieces[q]);
  }

  /** A kept runtime-context message always comes after the cache point. */
  lemma {:induction false} RuntimeContextIsNotCached(
      lib: Library, retention: Retention, before: seq<Message>, m: Message, after: seq<Message>,
      out: seq<OutMessage>, p: nat)
    requires m.User? && m.carrier && SinglePiece(lib, m).Ok? && SinglePiece(lib, m).value.Some?
    requires Pieces(lib, before + [m] + after).Ok?
    requires Cached(lib, retention, Pieces(lib, before + [m] + after).value, out)
    requires p < |out| && CachePoints(out[p].content) > 0
    ensures Pieces(lib, before).Ok? && p < |Pieces(lib, before).value|
  {
    SingleStandsAlone(lib, before, m, after);
    CachedPrefixIsStable(lib, retention, before + [m] + after, out, p, p);
    var v := |Pieces(lib, before).value|;
    assert Pieces(lib, before + [m] + after).value[v] == SinglePiece(lib, m).value.value;
  }

  /**
   When caching is on, the conversation ends with a user message and some user message is stable, a
   point is placed.
   */
  lemma {:induction false} CachePointIsPlaced(
      lib: Library, retention: Retention, pieces: seq<Piece>, out: seq<OutMessage>, u: nat)
    requires Cached(lib, retention, pieces, out) && CachePointWanted(lib, retention, pieces)
    requires Stable(pieces, u) && pieces[u].message.role == UserRole
    ensures exists p :: 0 <= p < |out| && CachePoints(out[p].content) > 0
  {
    AnchorExists(pieces, u);
    var p: nat :| IsAnchor(pieces, p) && Anchored(pieces, out, p, retention);
    CachePointsPush(pieces[p].message.content, CachePoint(retention == Long));
    assert CachePoints(out[p].content) > 0;
  }

  lemma {:induction false} AnchorExists(pieces: seq<Piece>, u: nat)
    requires Stable(pieces, u) && pieces[u].message.role == UserRole
    ensures exists p: nat :: IsAnchor(pieces, p)
    decreases |pieces| - u
  {
    if q :| u < q < |pieces| && pieces[q].message.role == UserRole && Stable(pieces, q) {
      AnchorExists(pieces, q);
    } else {
      assert IsAnchor(pieces, u);
    }
  }

  // ---------------------------------------------------------------- the converter

  method ConvertBlocks(lib: Library, m: Message, parts: seq<Part>) returns (r: Result<seq<Block>, Failure>)
    ensures r == ConvertParts(lib, m, parts)
  {
    var blocks := [];
    var k := 0;
    while k < |parts|
      invariant k <= |parts|
      invariant ConvertParts(lib, m, parts[..k]) == Ok(blocks)
    {
      PartsStep(lib, m, parts, k);
      var block := ConvertPart(lib, m, parts[k]);
      if block.Err? {
        PartsFail(lib, m, parts, k + 1);
        return Err(block.error);
      }
      if block.value.Some? {
        blocks := blocks + [block.value.value];
      }
      k := k + 1;
      assert blocks + [] == blocks;
    }
    assert parts[..k] == parts;
    r := Ok(blocks);
  }

  lemma {:induction false} PartsStep(lib: Library, m: Message, parts: seq<Part>, k: nat)
    requires k < |parts| && ConvertParts(lib, m, parts[..k]).Ok?
    ensures ConvertParts(lib, m, parts[..k + 1]) ==
            match ConvertPart(lib, m, parts[k]) {
              case Err(e) => Err(e)
              case Ok(block) => Ok(ConvertParts(lib, m, parts[..k]).value + if block.Some? then [block.value] else [])
            }
  {
    assert parts[..k + 1][..k] == parts[..k];
  }

  lemma {:induction false} PartsFail(lib: Library, m: Message, parts: seq<Part>, k: nat)
    requires k <= |parts| && ConvertParts(lib, m, parts[..k]).Err?
    ensures ConvertParts(lib, m, parts) == ConvertParts(lib, m, parts[..k])
    decreases |parts| - k
  {
    if k < |parts| {
      assert parts[..k + 1][..k] == parts[..k];
      PartsFail(lib, m, parts, k + 1);
    } else {
      assert parts[..k] == parts;
    }
  }

  method CreateToolResult(lib: Library, m: Message) returns (r: Result<Block, Failure>)
    requires m.ToolOutput?
    ensures r == ResultBlock(lib, m)
  {
    var content := ConvertBlocks(lib, m, m.parts);
    if content.Err? {
      return Err(content.error);
    }
    if content.value != [] {
      return Ok(ToolResult(m.callId, content.value, m.isError));
    }
    var missing := lib.placeholder(m.parts);
    r := Ok(ToolResult(m.callId, [Text(if missing.Some? then missing.value else "(no output)")], m.isError));
  }

  /** A user or assistant message: what to push, if anything. */
  method ConvertSingle(lib: Library, m: Message) returns (r: Result<Option<OutMessage>, Failure>)
    requires !m.ToolOutput?
    ensures match SinglePiece(lib, m) {
              case Err(e) => r == Err(e)
              case Ok(None) => r == Ok(None)
              case Ok(Some(piece)) => r == Ok(Some(piece.message)) && piece.volatile == (m.User? && m.carrier)
            }
  {
    if m.OtherRole? || (m.Assistant? && m.parts == []) {
      return Ok(None);
    }
    var content;
    if m.User? && m.plain.Some? {
      content := Ok([Text(lib.sanitize(m.plain.value))]);
    } else {
      content := ConvertBlocks(lib, m, m.parts);
    }
    if content.Err? {
      return Err(content.error);
    }
    if content.value == [] {
      return Ok(None);
    }
    r := Ok(Some(OutMessage(if m.User? then UserRole else AssistantRole, content.value)));
  }

  lemma {:induction false} RunStart(lib: Library, ms: seq<Message>, before: seq<Piece>, i: nat)
    requires i < |ms| && ms[i].ToolOutput? && !Continues(ms, i) && Pieces(lib, ms[..i]) == Ok(before)
    ensures match ResultBlock(lib, ms[i]) {
              case Err(e) => Pieces(lib, ms) == Err(e)
              case Ok(block) => Pieces(lib, ms[..i + 1]) == Ok(before + [Piece(OutMessage(UserRole, [block]), false)])
            }
  {
    PiecesStep(lib, ms, i);
    if ResultBlock(lib, ms[i]).Err? {
      FailurePersists(lib, ms, i + 1);
    }
  }

  lemma {:induction false} RunStep(lib: Library, ms: seq<Message>, before: seq<Piece>, blocks: seq<Block>, j: nat)
    requires 0 < j < |ms| && Continues(ms, j)
    requires Pieces(lib, ms[..j]) == Ok(before + [Piece(OutMessage(UserRole, blocks), false)])
    ensures match ResultBlock(lib, ms[j]) {
              case Err(e) => Pieces(lib, ms) == Err(e)
              case Ok(block) => Pieces(lib, ms[..j + 1])
                  == Ok(before + [Piece(OutMessage(UserRole, blocks + [block]), false)])
            }
  {
    PiecesStep(lib, ms, j);
    if ResultBlock(lib, ms[j]).Err? {
      FailurePersists(lib, ms, j + 1);
    } else {
      JoinLast(lib, before, blocks, ms[j]);
    }
  }

  /** The run of tool results from `i`, collected by looking ahead. */
  method CollectRun(lib: Library, ms: seq<Message>, i: nat) returns (j: nat, r: Result<seq<Block>, Failure>)
    requires i < |ms| && ms[i].ToolOutput? && !Continues(ms, i)
    requires Pieces(lib, ms[..i]).Ok?
    ensures r.Ok? ==> i < j <= |ms| && !Continues(ms, j)
    ensures match r {
              case Err(e) => Pieces(lib, ms) == Err(e)
              case Ok(blocks) =>
                j <= |ms| && Pieces(lib, ms[..j])
                    == Ok(Pieces(lib, ms[..i]).value + [Piece(OutMessage(UserRole, blocks), false)])
            }
  {
    ghost var before := Pieces(lib, ms[..i]).value;
    RunStart(lib, ms, before, i);
    var first := CreateToolResult(lib, ms[i]);
    j := i + 1;
    if first.Err? {
      return j, Err(first.error);
    }
    var toolResults := [first.value];
    while j < |ms| && ms[j].ToolOutput?
      invariant i < j <= |ms| && ms[j - 1].ToolOutput?
      invariant Pieces(lib, ms[..j]) == Ok(before + [Piece(OutMessage(UserRole, toolResults), false)])
    {
      RunStep(lib, ms, before, toolResults, j);
      var next := CreateToolResult(lib, ms[j]);
      if next.Err? {
        return j, Err(next.error);
      }
      toolResults := toolResults + [next.value];
      j := j + 1;
    }
    r := Ok(toolResults);
  }

  /** Where the first volatile piece stands, if any. */
  ghost predicate IsFirstVolatile(pieces: seq<Piece>, first: Option<nat>) {
    match first
    case None => forall k :: 0 <= k < |pieces| ==> !pieces[k].volatile
    case Some(v) => v < |pieces| && pieces[v].volatile && forall k :: 0 <= k < v ==> !pieces[k].volatile
  }

  lemma {:induction false} FirstVolatilePush(pieces: seq<Piece>, first: Option<nat>, piece: Piece)
    requires IsFirstVolatile(pieces, first)
    ensures IsFirstVolatile(pieces + [piece], if piece.volatile && first.None? then Some(|pieces|) else first)
  {
  }

  /** The loop: every message, with the index jumping over the runs it has collected. */
  method ConvertAll(
      lib: Library, ms: seq<Message>) returns (r: Result<seq<OutMessage>, Failure>, firstVolatile: Option<nat>)
    ensures match Pieces(lib, ms) {
              case Err(e) => r == Err(e)
              case Ok(pieces) => r.Ok? && Unanchored(pieces, r.value) && IsFirstVolatile(pieces, firstVolatile)
            }
  {
    var result: seq<OutMessage> := [];
    firstVolatile := None;
    ghost var pieces: seq<Piece> := [];
    var i := 0;
    while i < |ms|
      invariant i <= |ms| && !Continues(ms, i)
      invariant Pieces(lib, ms[..i]) == Ok(pieces)
      invariant Unanchored(pieces, result) && IsFirstVolatile(pieces, firstVolatile)
    {
      if ms[i].ToolOutput? {
        var j, run := CollectRun(lib, ms, i);
        if run.Err? {
          return Err(run.error), firstVolatile;
        }
        FirstVolatilePush(pieces, firstVolatile, Piece(OutMessage(UserRole, run.value), false));
        pieces := pieces + [Piece(OutMessage(UserRole, run.value), false)];
        result := result + [OutMessage(UserRole, run.value)];
        i := j;
      } else {
        SingleStep(lib, ms, pieces, i);
        var single := ConvertSingle(lib, ms[i]);
        if single.Err? {
          return Err(single.error), firstVolatile;
        }
        if single.value.Some? {
          ghost var piece := SinglePiece(lib, ms[i]).value.value;
          FirstVolatilePush(pieces, firstVolatile, piece);
          if ms[i].User? && ms[i].carrier && firstVolatile.None? {
            firstVolatile := Some(|result|);
          }
          pieces := pieces + [piece];
          result := result + [single.value.value];
        }
        i := i + 1;
      }
    }
    assert ms[..i] == ms;
    r := Ok(result);
  }

  lemma {:induction false} SingleStep(lib: Library, ms: seq<Message>, pieces: seq<Piece>, i: nat)
    requires i < |ms| && !ms[i].ToolOutput? && Pieces(lib, ms[..i]) == Ok(pieces)
    ensures match SinglePiece(lib, ms[i]) {
              case Err(e) => Pieces(lib, ms) == Err(e)
              case Ok(None) => Pieces(lib, ms[..i + 1]) == Ok(pieces)
              case Ok(Some(piece)) => Pieces(lib, ms[..i + 1]) == Ok(pieces + [piece])
            }
  {
    PiecesStep(lib, ms, i);
    if SinglePiece(lib, ms[i]).Err? {
      FailurePersists(lib, ms, i + 1);
    } else if SinglePiece(lib, ms[i]).value.None? {
      assert pieces + [] == pieces;
    }
  }

  /** The last user message before the first volatile one, if any. */
  method FindAnchor(
      result: seq<OutMessage>, firstVolatile: Option<nat>, ghost pieces: seq<Piece>) returns (anchor: Option<nat>)
    requires Unanchored(pieces, result) && IsFirstVolatile(pieces, firstVolatile)
    ensures match anchor {
              case None => forall p: nat :: !IsAnchor(pieces, p)
              case Some(p) => IsAnchor(pieces, p)
            }
  {
    var k := |result|;
    while k > 0
      invariant 0 <= k <= |result|
      invariant forall q :: k <= q < |pieces| && pieces[q].message.role == UserRole ==> !Stable(pieces, q)
    {
      k := k - 1;
      assert SameMessage(result[k], pieces[k]);
      if result[k].role == UserRole && (firstVolatile.None? || k < firstVolatile.value) {
        assert Stable(pieces, k);
        return Some(k);
      }
    }
    anchor := None;
  }

  method ConvertMessages(
      lib: Library, ms: seq<Message>, retention: Retention) returns (r: Result<seq<OutMessage>, Failure>)
    ensures match Pieces(lib, ms) {
              case Err(e) => r == Err(e)
              case Ok(pieces) => r.Ok? && Cached(lib, retention, pieces, r.value)
            }
  {
    var converted, firstVolatile := ConvertAll(lib, ms);
    if converted.Err? {
      return converted;
    }
    var result := converted.value;
    ghost var pieces := Pieces(lib, ms).value;
    assert pieces != [] ==> SameMessage(result[|result| - 1], pieces[|pieces| - 1]);
    if retention != NoRetention && lib.caching && result != [] && result[|result| - 1].role == UserRole {
      var anchor := FindAnchor(result, firstVolatile, pieces);
      if anchor.Some? {
        var p := anchor.value;
        assert SameMessage(result[p], pieces[p]);
        result := result[p := result[p].(content := result[p].content + [CachePoint(retention == Long)])];
        assert Anchored(pieces, result, p, retention);
      }
    }
    r := Ok(result);
  }
}
