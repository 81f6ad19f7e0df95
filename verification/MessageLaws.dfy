/**
 What each message of a conversation becomes, part by part
 (extensions/amazon-bedrock/stream.runtime.ts, convertMessages).
 */
module MessageLaws {
  import opened Prelude
  import opened Messages

  // ---------------------------------------------------------------- parts

  /** The signature of a thinking part can be sent back to the model. */
  predicate HasNativeSignature(lib: Library, part: Part)
    requires part.ThinkingPart?
  {
    lib.signatures && lib.trim(part.signature) != "" && lib.trim(part.signature) != "reasoning_content"
  }

  predicate IsImageType(mimeType: string, format: string) {
    (mimeType, format) in {
      ("image/jpeg", "jpeg"), ("image/jpg", "jpeg"), ("image/png", "png"), ("image/gif", "gif"), ("image/webp", "webp")
    }
  }

  /** Images of users and tools are sent, a tool's only where it counts as media. */
  predicate SendsImage(lib: Library, m: Message, part: Part) {
    part.ImagePart? && (m.ToolOutput? ==> lib.placeholder([part]).Some?) && !m.Assistant?
  }

  /** The block is what is sent for a part of this message. */
  predicate Carries(lib: Library, m: Message, part: Part, b: Block) {
    match b
    case Text(text) =>
      || (part.TextPart? && text == lib.sanitize(part.text) && (m.Assistant? ==> lib.trim(part.text) != ""))
      || (part.ThinkingPart? && m.Assistant? && IsPlainThinking(lib, part) && text == lib.sanitize(part.thinking))
    case Image(format, bytes) =>
      SendsImage(lib, m, part) && IsImageType(part.mimeType, format) && lib.decode(part.data) == Some(bytes)
    case ToolUse(id, name, arguments) => m.Assistant? && part == CallPart(id, name, arguments)
    case Reasoning(text, signature) =>
      && m.Assistant? && part == ThinkingPart(text, signature, false)
      && signature != "" && HasNativeSignature(lib, part)
    case RedactedReasoning(bytes) =>
      && m.Assistant? && part.ThinkingPart? && part.redacted && lib.signatures
      && part.signature != "" && lib.decode(part.signature) == Some(bytes)
    case ToolResult(_, _, _) => false
    case CachePoint(_) => false
  }

  /** Thinking that is sent as text: the model takes no signatures, or the signature is missing. */
  predicate IsPlainThinking(lib: Library, part: Part) {
    && part.ThinkingPart? && !part.redacted
    && if HasNativeSignature(lib, part) then part.signature == ""
       else lib.trim(part.thinking) != "" && (!lib.signatures || lib.trim(part.signature) == "")
  }

  /** The part keeps the message from being sent. */
  ghost predicate Fails(lib: Library, m: Message, part: Part, failure: Failure) {
    match failure
    case UnknownImageType => SendsImage(lib, m, part) && !exists format :: IsImageType(part.mimeType, format)
    case MalformedImage =>
      SendsImage(lib, m, part) && (exists format :: IsImageType(part.mimeType, format)) && lib.decode(part.data).None?
    case MissingSignature =>
      m.Assistant? && part.ThinkingPart? && part.redacted && lib.signatures && part.signature == ""
    case MalformedSignature =>
      && m.Assistant? && part.ThinkingPart? && part.redacted && lib.signatures
      && part.signature != "" && lib.decode(part.signature).None?
  }

  /** Nothing is sent for the part. */
  predicate Drops(lib: Library, m: Message, part: Part) {
    match part
    case TextPart(text) => m.Assistant? && lib.trim(text) == ""
    case ImagePart(_, _) => !SendsImage(lib, m, part)
    case CallPart(_, _, _) => !m.Assistant?
    case ThinkingPart(thinking, signature, redacted) =>
      || !m.Assistant?
      || (redacted && !lib.signatures)
      || (!redacted && lib.trim(thinking) == "" && !HasNativeSignature(lib, part))
      || (!redacted && lib.signatures && lib.trim(signature) == "reasoning_content")
    case OtherPart => true
  }

  /** Every part is sent as one block, dropped, or fails; and which it is can be read off the part. */
  lemma {:induction false} PartIsSent(lib: Library, m: Message, part: Part, b: Block, failure: Failure)
    ensures ConvertPart(lib, m, part) == Ok(Some(b)) <==> Carries(lib, m, part, b)
    ensures ConvertPart(lib, m, part) == Ok(None) <==> Drops(lib, m, part)
    ensures ConvertPart(lib, m, part) == Err(failure) <==> Fails(lib, m, part, failure)
  {
    if part.ImagePart? {
      ImageTypes(part.mimeType);
    }
  }

  lemma {:induction false} ImageTypes(mimeType: string)
    ensures forall format :: IsImageType(mimeType, format) <==> ImageFormat(mimeType) == Some(format)
    ensures ImageFormat(mimeType).Some? ==> IsImageType(mimeType, ImageFormat(mimeType).value)
  {
  }

  // ---------------------------------------------------------------- messages

  /** The blocks of a message: those its parts are sent as, in order. `at` says from which parts they are. */
  ghost predicate AreBlocks(lib: Library, m: Message, parts: seq<Part>, blocks: seq<Block>, at: seq<nat>) {
    && |at| == |blocks|
    && (forall j, k :: 0 <= j < k < |at| ==> at[j] < at[k])
    && (forall k {:trigger at[k]} :: 0 <= k < |at| ==> at[k] < |parts| && Carries(lib, m, parts[at[k]], blocks[k]))
    && (forall i {:trigger parts[i]} :: 0 <= i < |parts| && i !in at ==> Drops(lib, m, parts[i]))
  }

  lemma {:induction false} PartsAreSent(lib: Library, m: Message, parts: seq<Part>) returns (at: seq<nat>)
    requires ConvertParts(lib, m, parts).Ok?
    ensures AreBlocks(lib, m, parts, ConvertParts(lib, m, parts).value, at)
  {
    at := [];
    if parts != [] {
      var n := |parts| - 1;
      var older := PartsAreSent(lib, m, parts[..n]);
      var block := ConvertPart(lib, m, parts[n]).value;
      if block.Some? {
        PartIsSent(lib, m, parts[n], block.value, MalformedImage);
        at := older + [n];
      } else {
        PartIsSent(lib, m, parts[n], CachePoint(false), MalformedImage);
        at := older;
      }
    }
  }

  /** The first part that fails decides how the message fails. */
  ghost predicate FailsFirst(lib: Library, m: Message, parts: seq<Part>, failure: Failure) {
    exists k :: 0 <= k < |parts| && Fails(lib, m, parts[k], failure)
      && forall j, other :: 0 <= j < k ==> !Fails(lib, m, parts[j], other)
  }

  ghost predicate NoneFails(lib: Library, m: Message, parts: seq<Part>) {
    forall k, failure :: 0 <= k < |parts| ==> !Fails(lib, m, parts[k], failure)
  }

  lemma {:induction false} PartsFail(lib: Library, m: Message, parts: seq<Part>)
    ensures ConvertParts(lib, m, parts).Ok? ==> NoneFails(lib, m, parts)
    ensures ConvertParts(lib, m, parts).Err? ==> FailsFirst(lib, m, parts, ConvertParts(lib, m, parts).error)
  {
    if parts != [] {
      var older, n := parts[..|parts| - 1], |parts| - 1;
      PartsFail(lib, m, older);
      var part := ConvertPart(lib, m, parts[n]);
      forall failure ensures part == Err(failure) <==> Fails(lib, m, parts[n], failure) {
        PartIsSent(lib, m, parts[n], CachePoint(false), failure);
      }
      assert forall k :: 0 <= k < n ==> older[k] == parts[k];
    }
  }

  predicate HasParts(m: Message) {
    m.Assistant? || m.ToolOutput? || (m.User? && m.plain.None?)
  }

  ghost predicate AllDropped(lib: Library, m: Message)
    requires !m.OtherRole?
  {
    forall k :: 0 <= k < |m.parts| ==> Drops(lib, m, m.parts[k])
  }

  /** A user or assistant message as it is sent. */
  ghost predicate SentAs(lib: Library, m: Message, piece: Piece) {
    && (m.User? || m.Assistant?)
    && piece.message.role == (if m.User? then UserRole else AssistantRole) && (piece.volatile <==> m.User? && m.carrier)
    && if m.User? && m.plain.Some? then piece.message.content == [Text(lib.sanitize(m.plain.value))]
       else piece.message.content != [] && exists at :: AreBlocks(lib, m, m.parts, piece.message.content, at)
  }

  /** Nothing is left of the message. */
  ghost predicate Vanishes(lib: Library, m: Message) {
    m.OtherRole? || ((m.Assistant? || (m.User? && m.plain.None?)) && AllDropped(lib, m))
  }

  /** A tool's result as it is sent: with what its parts give, or a text saying what is missing. */
  ghost predicate ResultSentAs(lib: Library, m: Message, b: Block)
    requires m.ToolOutput?
  {
    && b.ToolResult? && b.callId == m.callId && b.isError == m.isError
    && if AllDropped(lib, m)
       then
         var missing := lib.placeholder(m.parts);
         b.content == [Text(if missing.Some? then missing.value else "(no output)")]
       else exists at :: AreBlocks(lib, m, m.parts, b.content, at)
  }

  lemma {:induction false} NoBlocksAllDropped(lib: Library, m: Message, blocks: seq<Block>, at: seq<nat>)
    requires HasParts(m) && AreBlocks(lib, m, m.parts, blocks, at)
    ensures blocks == [] <==> AllDropped(lib, m)
  {
    if blocks == [] {
      forall k | 0 <= k < |m.parts| ensures Drops(lib, m, m.parts[k]) {
        assert k !in at;
      }
    } else {
      PartIsSent(lib, m, m.parts[at[0]], blocks[0], MalformedImage);
    }
  }

  lemma {:induction false} SingleIsSent(lib: Library, m: Message)
    requires !m.ToolOutput? && SinglePiece(lib, m).Ok?
    ensures SinglePiece(lib, m).value.Some? ==> SentAs(lib, m, SinglePiece(lib, m).value.value)
    ensures SinglePiece(lib, m).value.None? ==> Vanishes(lib, m)
    ensures HasParts(m) ==> NoneFails(lib, m, m.parts)
  {
    if HasParts(m) {
      var at := PartsAreSent(lib, m, m.parts);
      NoBlocksAllDropped(lib, m, ConvertParts(lib, m, m.parts).value, at);
      PartsFail(lib, m, m.parts);
    }
  }

  lemma {:induction false} ResultIsSent(lib: Library, m: Message)
    requires m.ToolOutput? && ResultBlock(lib, m).Ok?
    ensures ResultSentAs(lib, m, ResultBlock(lib, m).value) && NoneFails(lib, m, m.parts)
  {
    var at := PartsAreSent(lib, m, m.parts);
    NoBlocksAllDropped(lib, m, ConvertParts(lib, m, m.parts).value, at);
    PartsFail(lib, m, m.parts);
  }

  // ---------------------------------------------------------------- the conversation

  /** Messages `from` up to `to` are a maximal run of tool results, or one message that is none. */
  ghost predicate IsGroup(ms: seq<Message>, from: nat, to: nat) {
    && from < to <= |ms|
    && if ms[from].ToolOutput? then
         && (forall i :: from <= i < to ==> ms[i].ToolOutput?)
         && (from > 0 ==> !ms[from - 1].ToolOutput?) && (to < |ms| ==> !ms[to].ToolOutput?)
       else to == from + 1
  }

  /** The group is sent as this one message. */
  ghost predicate GroupSentAs(lib: Library, ms: seq<Message>, from: nat, to: nat, piece: Piece)
    requires IsGroup(ms, from, to)
  {
    if ms[from].ToolOutput? then
      && piece.message.role == UserRole && !piece.volatile && |piece.message.content| == to - from
      && forall i {:trigger ms[i]} :: from <= i < to ==> ResultSentAs(lib, ms[i], piece.message.content[i - from])
    else SentAs(lib, ms[from], piece)
  }

  /** One message for every group, in order; what is in no group vanishes. */
  ghost predicate IsConversion(lib: Library, ms: seq<Message>, pieces: seq<Piece>, groups: seq<(nat, nat)>) {
    && |groups| == |pieces|
    && (forall k {:trigger groups[k]} :: 0 <= k < |groups| ==>
          IsGroup(ms, groups[k].0, groups[k].1) && GroupSentAs(lib, ms, groups[k].0, groups[k].1, pieces[k]))
    && (forall j, k :: 0 <= j < k < |groups| ==> groups[j].1 <= groups[k].0)
    && (forall i {:trigger ms[i]} :: 0 <= i < |ms| ==> Vanishes(lib, ms[i]) || InGroup(groups, i))
  }

  ghost predicate InGroup(groups: seq<(nat, nat)>, i: nat) {
    exists k :: 0 <= k < |groups| && groups[k].0 <= i < groups[k].1
  }

  /** The last group reaches the end of a conversation that ends with a tool's result. */
  ghost predicate LastReaches(ms: seq<Message>, groups: seq<(nat, nat)>) {
    ms != [] && ms[|ms| - 1].ToolOutput? ==> groups != [] && groups[|groups| - 1].1 == |ms|
  }

  lemma {:induction false} GroupInLonger(
      lib: Library, ms: seq<Message>, m: Message, from: nat, to: nat, piece: Piece)
    requires IsGroup(ms, from, to) && GroupSentAs(lib, ms, from, to, piece)
    requires to == |ms| && ms[from].ToolOutput? ==> !m.ToolOutput?
    ensures IsGroup(ms + [m], from, to) && GroupSentAs(lib, ms + [m], from, to, piece)
  {
    var longer := ms + [m];
    assert forall i :: 0 <= i < |ms| ==> longer[i] == ms[i];
  }

  /** A message more, which is no tool's result. */
  lemma {:induction false} PushSingle(
      lib: Library, ms: seq<Message>, pieces: seq<Piece>, groups: seq<(nat, nat)>, m: Message)
    returns (groups': seq<(nat, nat)>)
    requires IsConversion(lib, ms, pieces, groups) && !m.ToolOutput? && SinglePiece(lib, m).Ok?
    ensures var piece := SinglePiece(lib, m).value;
            IsConversion(lib, ms + [m], pieces + if piece.Some? then [piece.value] else [], groups')
    ensures LastReaches(ms + [m], groups')
  {
    var piece, longer, n := SinglePiece(lib, m).value, ms + [m], |ms|;
    SingleIsSent(lib, m);
    groups' := groups + if piece.Some? then [(n, n + 1)] else [];
    forall k | 0 <= k < |groups| ensures IsGroup(longer, groups[k].0, groups[k].1)
      && GroupSentAs(lib, longer, groups[k].0, groups[k].1, pieces[k])
    {
      GroupInLonger(lib, ms, m, groups[k].0, groups[k].1, pieces[k]);
    }
    forall i | 0 <= i < |longer| ensures Vanishes(lib, longer[i]) || InGroup(groups', i) {
      if i < n {
        assert longer[i] == ms[i];
        StillInGroup(groups, if piece.Some? then [(n, n + 1)] else [], i);
      } else if piece.Some? {
        assert groups'[|groups|] == (n, n + 1);
      }
    }
  }

  lemma {:induction false} StillInGroup(groups: seq<(nat, nat)>, more: seq<(nat, nat)>, i: nat)
    ensures InGroup(groups, i) ==> InGroup(groups + more, i)
  {
    if k :| 0 <= k < |groups| && groups[k].0 <= i < groups[k].1 {
      assert (groups + more)[k] == groups[k];
    }
  }

  /** A tool's result more, which begins a run. */
  lemma {:induction false} PushRun(
      lib: Library, ms: seq<Message>, pieces: seq<Piece>, groups: seq<(nat, nat)>, m: Message)
    returns (groups': seq<(nat, nat)>)
    requires IsConversion(lib, ms, pieces, groups) && m.ToolOutput? && ResultBlock(lib, m).Ok?
    requires ms != [] ==> !ms[|ms| - 1].ToolOutput?
    ensures IsConversion(lib, ms + [m], pieces + [Piece(OutMessage(UserRole, [ResultBlock(lib, m).value]), false)],
        groups')
    ensures LastReaches(ms + [m], groups')
  {
    var longer, n := ms + [m], |ms|;
    ResultIsSent(lib, m);
    groups' := groups + [(n, n + 1)];
    forall k | 0 <= k < |groups| ensures IsGroup(longer, groups[k].0, groups[k].1)
      && GroupSentAs(lib, longer, groups[k].0, groups[k].1, pieces[k])
    {
      GroupInLonger(lib, ms, m, groups[k].0, groups[k].1, pieces[k]);
    }
    assert longer[n] == m && IsGroup(longer, n, n + 1);
    forall i | 0 <= i < |longer| ensures Vanishes(lib, longer[i]) || InGroup(groups', i) {
      if i < n {
        assert longer[i] == ms[i];
        StillInGroup(groups, [(n, n + 1)], i);
      } else {
        assert groups'[|groups|] == (n, n + 1);
      }
    }
  }

  /** The run that a tool's result joins. */
  lemma {:induction false} LongerRun(
      lib: Library, ms: seq<Message>, from: nat, piece: Piece, m: Message)
    requires IsGroup(ms, from, |ms|) && GroupSentAs(lib, ms, from, |ms|, piece) && ms[|ms| - 1].ToolOutput?
    requires m.ToolOutput? && ResultBlock(lib, m).Ok?
    ensures IsGroup(ms + [m], from, |ms| + 1)
    ensures GroupSentAs(lib, ms + [m], from, |ms| + 1,
                        piece.(message := piece.message.(
                          content := piece.message.content + [ResultBlock(lib, m).value])))
  {
    var longer := ms + [m];
    ResultIsSent(lib, m);
    assert forall i :: 0 <= i < |ms| ==> longer[i] == ms[i];
  }

  lemma {:induction false} JoinedPieces(lib: Library, pieces: seq<Piece>, m: Message) returns (pieces': seq<Piece>)
    requires m.ToolOutput? && ResultBlock(lib, m).Ok? && pieces != []
    ensures Extend(lib, pieces, m, true) == Ok(pieces') && |pieces'| == |pieces|
    ensures forall k :: 0 <= k < |pieces| - 1 ==> pieces'[k] == pieces[k]
    ensures var last := pieces[|pieces| - 1];
            pieces'[|pieces| - 1] ==
            last.(message := last.message.(content := last.message.content + [ResultBlock(lib, m).value]))
  {
    pieces' := Extend(lib, pieces, m, true).value;
  }

  lemma {:induction false} JoinRun(
      lib: Library, ms: seq<Message>, pieces: seq<Piece>, groups: seq<(nat, nat)>, m: Message)
    returns (groups': seq<(nat, nat)>)
    requires IsConversion(lib, ms, pieces, groups) && LastReaches(ms, groups) && m.ToolOutput?
        && ResultBlock(lib, m).Ok?
    requires ms != [] && ms[|ms| - 1].ToolOutput?
    ensures pieces != [] && Extend(lib, pieces, m, true).Ok?
    ensures IsConversion(lib, ms + [m], Extend(lib, pieces, m, true).value, groups')
    ensures LastReaches(ms + [m], groups')
  {
    var longer, n, l := ms + [m], |ms|, |groups| - 1;
    var from := groups[l].0;
    groups' := groups[..l] + [(from, n + 1)];
    LongerRun(lib, ms, from, pieces[l], m);
    var pieces' := JoinedPieces(lib, pieces, m);
    assert groups'[l] == (from, n + 1);
    forall k | 0 <= k < |groups'| ensures IsGroup(longer, groups'[k].0, groups'[k].1)
      && GroupSentAs(lib, longer, groups'[k].0, groups'[k].1, pieces'[k])
    {
      if k < l {
        assert groups'[k] == groups[k] && pieces'[k] == pieces[k];
        GroupInLonger(lib, ms, m, groups[k].0, groups[k].1, pieces[k]);
      }
    }
    forall i | 0 <= i < |longer| ensures Vanishes(lib, longer[i]) || InGroup(groups', i) {
      if i < n {
        assert longer[i] == ms[i];
        JoinedInGroup(groups, n, i);
      } else {
        assert groups'[l].0 <= i < groups'[l].1;
      }
    }
  }

  lemma {:induction false} JoinedInGroup(groups: seq<(nat, nat)>, n: nat, i: nat)
    requires groups != [] && groups[|groups| - 1].1 == n
    ensures InGroup(groups, i) ==> InGroup(groups[..|groups| - 1] + [(groups[|groups| - 1].0, n + 1)], i)
  {
    var l := |groups| - 1;
    var groups' := groups[..l] + [(groups[l].0, n + 1)];
    if k :| 0 <= k < |groups| && groups[k].0 <= i < groups[k].1 {
      assert groups'[k].0 == groups[k].0 && groups'[k].1 >= groups[k].1;
    }
  }

  lemma {:induction false} PushMessage(
      lib: Library, ms: seq<Message>, pieces: seq<Piece>, groups: seq<(nat, nat)>, m: Message)
    returns (groups': seq<(nat, nat)>)
    requires IsConversion(lib, ms, pieces, groups) && LastReaches(ms, groups)
    requires Extend(lib, pieces, m, Continues(ms + [m], |ms|)).Ok?
    ensures IsConversion(lib, ms + [m], Extend(lib, pieces, m, Continues(ms + [m], |ms|)).value, groups')
    ensures LastReaches(ms + [m], groups')
  {
    assert Continues(ms + [m], |ms|) <==> ms != [] && m.ToolOutput? && ms[|ms| - 1].ToolOutput?;
    if !m.ToolOutput? {
      groups' := PushSingle(lib, ms, pieces, groups, m);
    } else if ms != [] && ms[|ms| - 1].ToolOutput? {
      groups' := JoinRun(lib, ms, pieces, groups, m);
    } else {
      groups' := PushRun(lib, ms, pieces, groups, m);
    }
  }

  /**
   What a conversation becomes: one message for each user or assistant message of which
   something is left, and one for each maximal run of tool results, in order; user messages
   and runs become user messages, assistant messages become assistant messages, and their
   blocks are what the parts are sent as.
   */
  lemma {:induction false} ConversationIsSent(lib: Library, ms: seq<Message>) returns (groups: seq<(nat, nat)>)
    requires Pieces(lib, ms).Ok?
    ensures IsConversion(lib, ms, Pieces(lib, ms).value, groups) && LastReaches(ms, groups)
  {
    if ms == [] {
      groups := [];
    } else {
      var older, m := ms[..|ms| - 1], ms[|ms| - 1];
      assert ms == older + [m];
      PiecesPush(lib, older, m);
      groups := ConversationIsSent(lib, older);
      groups := PushMessage(lib, older, Pieces(lib, older).value, groups, m);
    }
  }

  ghost predicate MessageFails(lib: Library, m: Message, failure: Failure) {
    HasParts(m) && FailsFirst(lib, m, m.parts, failure)
  }

  /** It fails exactly if some part fails, and then as the first such part does. */
  lemma {:induction false} ConversationFails(lib: Library, ms: seq<Message>)
    ensures Pieces(lib, ms).Ok? ==> forall i :: 0 <= i < |ms| && HasParts(ms[i]) ==> NoneFails(lib, ms[i], ms[i].parts)
    ensures Pieces(lib, ms).Err? ==>
              exists i :: 0 <= i < |ms| && MessageFails(lib, ms[i], Pieces(lib, ms).error)
                && forall j :: 0 <= j < i && HasParts(ms[j]) ==> NoneFails(lib, ms[j], ms[j].parts)
  {
    if ms != [] {
      var older, m, n := ms[..|ms| - 1], ms[|ms| - 1], |ms| - 1;
      assert ms == older + [m];
      assert forall i :: 0 <= i < n ==> older[i] == ms[i];
      PiecesPush(lib, older, m);
      ConversationFails(lib, older);
      if Pieces(lib, older).Ok? {
        LastFails(lib, m);
        assert ms[n] == m;
      }
    }
  }

  lemma {:induction false} LastFails(lib: Library, m: Message)
    ensures forall pieces, joins :: Extend(lib, pieces, m, joins).Ok? && HasParts(m) ==> NoneFails(lib, m, m.parts)
    ensures forall pieces, joins :: Extend(lib, pieces, m, joins).Err? ==>
              MessageFails(lib, m, Extend(lib, pieces, m, joins).error)
  {
    if HasParts(m) {
      PartsFail(lib, m, m.parts);
    }
  }
}
