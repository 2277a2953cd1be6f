/**
 Signed page cursors.  The wire formats (JSON in URL-safe base64) are parameters known by reading back what
 they write; the signature is an arbitrary function of the payload's text; the clock is an input.
 */
module Cursor {
  import opened MachineWords
  import opened Numerals
  import opened Options

  const VERSION: string := "perseval.mcp.cursor.v1"

  datatype Payload = Payload(
    version: string, workspaceId: string, tool: string, scopeId: Option<string>, filterHash: string,
    offset: string, commitSequence: string, expiresAt: string)

  datatype Signed = Signed(payload: string, signature: seq<bv8>)

  datatype Position = Position(offset: nat, commitSequence: nat)
  datatype CursorError = Invalid | Expired
  datatype Decoded = Ok(position: Position) | Err(error: CursorError)

  datatype Wire = Wire(
    writePayload: Payload -> string, readPayload: string -> Option<Payload>,
    writeSigned: Signed -> string, readSigned: string -> Option<Signed>)
  {
    /** Reading undoes writing. */
    ghost predicate RoundTrips() {
      && (forall p :: readPayload(writePayload(p)) == Some(p))
      && (forall s :: readSigned(writeSigned(s)) == Some(s))
    }
  }

  /** A codec: its key only matters through the signatures it makes. */
  datatype Codec = Codec(workspaceId: string, ttlSeconds: nat, sign: string -> seq<bv8>)

  /** What a cursor is bound to. */
  datatype Binding = Binding(tool: string, scopeId: Option<string>, filterHash: string)

  // ---------------------------------------------------------- constant-time equality

  /** The differences of all bytes, collected. */
  function Difference(left: seq<bv8>, right: seq<bv8>): bv8
    requires |left| == |right|
  {
    if left == [] then 0
    else Difference(left[..|left| - 1], right[..|right| - 1]) | (left[|left| - 1] ^ right[|right| - 1])
  }

  predicate ConstantTimeEq(left: seq<bv8>, right: seq<bv8>) {
    |left| == |right| && Difference(left, right) == 0
  }

  lemma NoBitsDiffer(d: bv8, a: bv8, b: bv8)
    ensures d | (a ^ b) == 0 <==> d == 0 && a == b
  {
  }

  /** No difference is collected exactly when there is none. */
  lemma {:induction false} ConstantTimeEqIsEquality(left: seq<bv8>, right: seq<bv8>)
    ensures ConstantTimeEq(left, right) <==> left == right
  {
    if |left| == |right| && left != [] {
      var l, r := left[..|left| - 1], right[..|right| - 1];
      assert left == l + [left[|left| - 1]] && right == r + [right[|right| - 1]];
      ConstantTimeEqIsEquality(l, r);
      NoBitsDiffer(Difference(l, r), left[|left| - 1], right[|right| - 1]);
    }
  }

  // ------------------------------------------------------------- encoding, decoding

  function PayloadOf(codec: Codec, binding: Binding, offset: nat, commitSequence: nat, now: nat): Payload {
    Payload(
      VERSION, codec.workspaceId, binding.tool, binding.scopeId, binding.filterHash,
      ToDecimal(offset), ToDecimal(commitSequence), ToDecimal(SaturatingAdd(now, codec.ttlSeconds)))
  }

  function Encode(codec: Codec, wire: Wire, binding: Binding, offset: nat, commitSequence: nat, now: nat): string {
    var payload := wire.writePayload(PayloadOf(codec, binding, offset, commitSequence, now));
    wire.writeSigned(Signed(payload, codec.sign(payload)))
  }

  /** A payload that names other inputs, or another version or workspace, is invalid; so is one that is malformed. */
  function Open(codec: Codec, payload: Payload, binding: Binding, current: nat, now: nat): Decoded {
    if payload.version != VERSION || payload.workspaceId != codec.workspaceId || payload.tool != binding.tool
       || payload.scopeId != binding.scopeId || payload.filterHash != binding.filterHash
    then Err(Invalid)
    else
      match ParseU64(payload.expiresAt)
      case None => Err(Invalid)
      case Some(expiresAt) =>
        match ParseU64(payload.commitSequence)
        case None => Err(Invalid)
        case Some(commitSequence) =>
          if expiresAt < now || commitSequence != current then Err(Expired)
          else
            match ParseU64(payload.offset)
            case None => Err(Invalid)
            case Some(offset) => Ok(Position(offset, commitSequence))
  }

  function Decode(codec: Codec, wire: Wire, cursor: string, binding: Binding, current: nat, now: nat): Decoded {
    match wire.readSigned(cursor)
    case None => Err(Invalid)
    case Some(signed) =>
      if !ConstantTimeEq(signed.signature, codec.sign(signed.payload)) then Err(Invalid)
      else
        match wire.readPayload(signed.payload)
        case None => Err(Invalid)
        case Some(payload) => Open(codec, payload, binding, current, now)
  }

  /**
   What decoding makes of an encoded cursor, for all inputs: other inputs make it invalid, a passed time to
   live or another commit expires it, and otherwise it gives back the offset and the commit.
   */
  lemma DecodeOfEncode(
      codec: Codec, wire: Wire, binding: Binding, offset: nat, commitSequence: nat, issued: nat,
      asked: Binding, current: nat, now: nat)
    requires wire.RoundTrips() && offset < WORD && commitSequence < WORD && issued < WORD
    ensures Decode(codec, wire, Encode(codec, wire, binding, offset, commitSequence, issued), asked, current, now)
      == if asked != binding then Err(Invalid)
         else if SaturatingAdd(issued, codec.ttlSeconds) < now || commitSequence != current then Err(Expired)
         else Ok(Position(offset, commitSequence))
  {
    var payload := PayloadOf(codec, binding, offset, commitSequence, issued);
    var text := wire.writePayload(payload);
    ConstantTimeEqIsEquality(codec.sign(text), codec.sign(text));
    ParseUndoesToDecimal(offset);
    ParseUndoesToDecimal(commitSequence);
    ParseUndoesToDecimal(SaturatingAdd(issued, codec.ttlSeconds));
  }

  /** Whatever is decoded carries the codec's own signature on its payload, and that payload names the inputs. */
  lemma OnlySignedCursorsDecode(codec: Codec, wire: Wire, cursor: string, binding: Binding, current: nat, now: nat)
    ensures Decode(codec, wire, cursor, binding, current, now).Ok? <==>
      && wire.readSigned(cursor).Some?
      && var signed := wire.readSigned(cursor).value;
      && signed.signature == codec.sign(signed.payload)
      && wire.readPayload(signed.payload).Some?
      && var payload := wire.readPayload(signed.payload).value;
      && payload.version == VERSION && payload.workspaceId == codec.workspaceId
      && Binding(payload.tool, payload.scopeId, payload.filterHash) == binding
      && ParseU64(payload.expiresAt).Some? && now <= ParseU64(payload.expiresAt).value
      && ParseU64(payload.commitSequence) == Some(current)
      && ParseU64(payload.offset).Some?
  {
    match wire.readSigned(cursor)
    case None =>
    case Some(signed) => ConstantTimeEqIsEquality(signed.signature, codec.sign(signed.payload));
  }

  /** An issued cursor's inputs. */
  datatype Issue = Issue(binding: Binding, offset: nat, commitSequence: nat, now: nat)

  function PayloadText(codec: Codec, wire: Wire, issue: Issue): string {
    wire.writePayload(PayloadOf(codec, issue.binding, issue.offset, issue.commitSequence, issue.now))
  }

  /** The cursor carries the codec's signature only if its payload is one that was signed on issuing. */
  ghost predicate Unforged(codec: Codec, wire: Wire, issues: set<Issue>, cursor: string) {
    wire.readSigned(cursor).Some? ==>
      var signed := wire.readSigned(cursor).value;
      signed.signature == codec.sign(signed.payload) ==>
        exists issue :: issue in issues && signed.payload == PayloadText(codec, wire, issue)
  }

  ghost predicate Answers(codec: Codec, issue: Issue, position: Position, asked: Binding, current: nat, now: nat) {
    && issue.binding == asked && issue.offset == position.offset
    && issue.commitSequence == position.commitSequence == current
    && now <= SaturatingAdd(issue.now, codec.ttlSeconds)
  }

  /** Unless a signature is forged, every accepted cursor was issued: for these inputs, this commit, and not too long ago. */
  lemma AcceptedCursorsWereIssued(
      codec: Codec, wire: Wire, issues: set<Issue>, cursor: string, asked: Binding, current: nat, now: nat)
    requires wire.RoundTrips() && Unforged(codec, wire, issues, cursor)
    requires forall issue :: issue in issues ==>
      issue.offset < WORD && issue.commitSequence < WORD && issue.now < WORD
    ensures var decoded := Decode(codec, wire, cursor, asked, current, now);
      decoded.Ok? ==>
        exists issue :: issue in issues && Answers(codec, issue, decoded.position, asked, current, now)
  {
    var decoded := Decode(codec, wire, cursor, asked, current, now);
    if decoded.Ok? {
      OnlySignedCursorsDecode(codec, wire, cursor, asked, current, now);
      var signed := wire.readSigned(cursor).value;
      var issue :| issue in issues && signed.payload == PayloadText(codec, wire, issue);
      assert wire.readPayload(signed.payload)
        == Some(PayloadOf(codec, issue.binding, issue.offset, issue.commitSequence, issue.now));
      ParseUndoesToDecimal(issue.offset);
      ParseUndoesToDecimal(issue.commitSequence);
      ParseUndoesToDecimal(SaturatingAdd(issue.now, codec.ttlSeconds));
      assert Answers(codec, issue, decoded.position, asked, current, now);
    }
  }

  /** A cursor of another workspace, or signed with another key, is invalid here. */
  lemma ForeignCursorsAreInvalid(
      issuer: Codec, reader: Codec, wire: Wire, binding: Binding, offset: nat, commitSequence: nat, issued: nat,
      asked: Binding, current: nat, now: nat)
    requires wire.RoundTrips()
    requires issuer.workspaceId != reader.workspaceId || forall text :: issuer.sign(text) != reader.sign(text)
    ensures Decode(reader, wire, Encode(issuer, wire, binding, offset, commitSequence, issued), asked, current, now)
      == Err(Invalid)
  {
    var text := wire.writePayload(PayloadOf(issuer, binding, offset, commitSequence, issued));
    ConstantTimeEqIsEquality(issuer.sign(text), reader.sign(text));
  }
}
