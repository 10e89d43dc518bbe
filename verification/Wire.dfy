/**
 The binary instruction set (pkg/protocol/opcodes.go) and the byte layout that
 the encoders of pkg/protocol/buffer.go produce for it.
 */
module Wire {

  type byte = x: int | 0 <= x < 256
  type uint32 = x: int | 0 <= x < 0x1_0000_0000

  /** Go strings are byte sequences. */
  type Str = seq<byte>

  const OP_HELLO: byte := 0x00
  const OP_UPDATE_TEXT: byte := 0x01
  const OP_SET_ATTR: byte := 0x02
  const OP_REMOVE_ATTR: byte := 0x03
  const OP_INSERT_NODE: byte := 0x04
  const OP_REMOVE_NODE: byte := 0x05
  const OP_REPLACE_TEXT: byte := 0x06
  const OP_SET_STYLE: byte := 0x07
  const OP_PUSH_HISTORY: byte := 0x08
  const OP_BATCH: byte := 0x09
  const OP_ERROR: byte := 0x0A
  const OP_DEVTOOLS_STATE: byte := 0x0B
  const OP_AUTH_CHALLENGE: byte := 0x0C
  const OP_AUTH_RESULT: byte := 0x0D
  const OP_INSERT_TEXT: byte := 0x0E
  const OP_INSERT_HTML: byte := 0x0F
  const OP_CLIENT_INTENT: byte := 0x10
  const OP_CLIENT_NAV: byte := 0x11
  const OP_CLIENT_HELLO: byte := 0x12
  const OP_CLIENT_AUTH: byte := 0x13
  const OP_CLEAR_CHILDREN: byte := 0x14
  const OP_SWAP_NODES: byte := 0x15
  const OP_BATCH_TEXT: byte := 0x16

  /** One instruction: the fields its opcode uses. */
  datatype Msg =
    | Hello(major: byte, minor: byte)
    | UpdateText(node: uint32, text: Str)
    | SetAttr(node: uint32, key: Str, value: Str)
    | RemoveAttr(node: uint32, key: Str)
    | InsertNode(node: uint32, parent: uint32, sibling: uint32, tag: Str, attrs: seq<(Str, Str)>)
    | RemoveNode(node: uint32)
    | ReplaceText(node: uint32, offset: uint32, length: uint32, text: Str)
    | SetStyle(node: uint32, key: Str, value: Str)
    | PushHistory(text: Str)
    | Batch(children: seq<Msg>)
    | Error(text: Str)
    | DevToolsState(payload: Str)
    | AuthChallenge(rpId: Str, challenge: Str)
    | AuthResult(success: bool, token: Str)
    | InsertText(node: uint32, parent: uint32, text: Str)
    | InsertHTML(parent: uint32, html: Str)
    | ClientIntent(node: uint32, event: byte, payload: Str)
    | ClientNav(text: Str)
    | ClientHello(major: byte, minor: byte)
    | ClientAuth(credId: Str, authData: Str, clientData: Str, signature: Str)
    | ClearChildren(parent: uint32)
    | SwapNodes(nodeA: uint32, nodeB: uint32)
    | BatchText(updates: seq<(uint32, Str)>)

  /** Big-endian integers, as `binary.BigEndian` writes and reads them; the conversions wrap. */
  function U16(n: nat): (b: seq<byte>)
    ensures |b| == 2
  {
    [n / 0x100 % 0x100, n % 0x100]
  }

  function U32(n: nat): (b: seq<byte>)
    ensures |b| == 4
  {
    U16(n / 0x1_0000) + U16(n)
  }

  function Be16(b: seq<byte>): (n: nat)
    requires |b| == 2
    ensures n < 0x1_0000
  {
    (b[0] as int) * 0x100 + b[1]
  }

  function Be32(b: seq<byte>): (n: uint32)
    requires |b| == 4
  {
    Be16([b[0], b[1]]) * 0x1_0000 + Be16([b[2], b[3]])
  }

  lemma {:induction false} Be16U16(n: nat)
    ensures Be16(U16(n)) == n % 0x1_0000
  {
  }

  lemma {:induction false} Be32U32(n: nat)
    ensures Be32(U32(n)) == n % 0x1_0000_0000
  {
    hide U16, Be16;
    var b := U32(n);
    assert [b[0], b[1]] == U16(n / 0x1_0000) && [b[2], b[3]] == U16(n);
    Be16U16(n / 0x1_0000);
    Be16U16(n);
  }

  /** The number whose big-endian bytes are `s`. */
  function Number(s: Str): nat {
    if s == [] then 0 else 0x100 * Number(s[..|s| - 1]) + s[|s| - 1]
  }

  /** What is written in two and four bytes is the number's low part, the most significant byte first. */
  lemma {:induction false} NumberWritten(n: nat)
    ensures Number(U16(n)) == n % 0x1_0000 && Number(U32(n)) == n % 0x1_0000_0000
  {
    NumberRead(U16(n));
    NumberRead(U32(n));
    Be16U16(n);
    Be32U32(n);
  }

  lemma {:induction false} NumberRead(b: seq<byte>)
    ensures |b| == 2 ==> Be16(b) == Number(b)
    ensures |b| == 4 ==> Be32(b) == Number(b)
  {
    if |b| == 2 {
      assert b[..1][..0] == [];
      assert Number(b[..1]) == b[0];
    }
    if |b| == 4 {
      assert b[..3][..2] == b[..2] && b[..2][..1] == b[..1] && b[..1][..0] == [];
      assert Number(b[..1]) == b[0] && Number(b[..2]) == 0x100 * Number(b[..1]) + b[1];
      assert Number(b[..3]) == 0x100 * Number(b[..2]) + b[2];
    }
  }

  /** A length-prefixed frame, as `beginFrame` and `endFrame` delimit it. */
  function Frame(body: seq<byte>): (f: seq<byte>)
    ensures |f| == 4 + |body|
  {
    U32(|body|) + body
  }

  /** A string with a 2-byte length. */
  function Field(s: Str): seq<byte> {
    U16(|s|) + s
  }

  function EncodeAttrs(attrs: seq<(Str, Str)>): seq<byte> {
    if attrs == [] then []
    else Field(attrs[0].0) + (Field(attrs[0].1) + EncodeAttrs(attrs[1..]))
  }

  /** What setting the pairs one after the other leaves. */
  function FromPairs(pairs: seq<(Str, Str)>): map<Str, Str> {
    if pairs == [] then map[]
    else FromPairs(pairs[..|pairs| - 1])[pairs[|pairs| - 1].0 := pairs[|pairs| - 1].1]
  }

  function EncodeUpdates(updates: seq<(uint32, Str)>): seq<byte> {
    if updates == [] then []
    else U32(updates[0].0) + (Field(updates[0].1) + EncodeUpdates(updates[1..]))
  }

  /** Frames that a walk guided by the length prefixes alone counts (countFrames). */
  function CountFrames(data: seq<byte>): nat
    decreases |data|
  {
    if |data| < 4 then 0
    else
      var n := Be32(data[..4]);
      1 + CountFrames(if 4 + n <= |data| then data[4 + n..] else [])
  }

  /** The frame body written for `m`. */
  function Body(m: Msg): (b: seq<byte>)
    ensures |b| > 0
    decreases m
  {
    match m
    case Hello(major, minor) => [OP_HELLO, major, minor]
    case UpdateText(node, text) => [OP_UPDATE_TEXT] + U32(node) + text
    case SetAttr(node, key, value) => [OP_SET_ATTR] + U32(node) + (key + [0] + value)
    case RemoveAttr(node, key) => [OP_REMOVE_ATTR] + U32(node) + key
    case InsertNode(node, parent, sibling, tag, attrs) =>
      [OP_INSERT_NODE] + U32(node)
      + (U32(parent) + (U32(sibling) + ([|tag| % 0x100] + tag + (U16(|attrs|) + EncodeAttrs(attrs)))))
    case RemoveNode(node) => [OP_REMOVE_NODE] + U32(node)
    case ReplaceText(node, offset, length, text) =>
      [OP_REPLACE_TEXT] + U32(node) + (U32(offset) + (U32(length) + text))
    case SetStyle(node, key, value) => [OP_SET_STYLE] + U32(node) + (key + [0] + value)
    case PushHistory(text) => [OP_PUSH_HISTORY] + text
    case Batch(children) =>
      var inner := EncodeAll(children);
      [OP_BATCH] + U32(CountFrames(inner)) + inner
    case Error(text) => [OP_ERROR] + Field(text)
    case DevToolsState(payload) => [OP_DEVTOOLS_STATE] + U32(|payload|) + payload
    case AuthChallenge(rpId, challenge) => [OP_AUTH_CHALLENGE] + ([|rpId| % 0x100] + rpId + challenge)
    case AuthResult(success, token) => [OP_AUTH_RESULT, if success then 1 else 0] + token
    case InsertText(node, parent, text) => [OP_INSERT_TEXT] + U32(node) + (U32(parent) + text)
    case InsertHTML(parent, html) => [OP_INSERT_HTML] + U32(parent) + html
    case ClientIntent(node, event, payload) => [OP_CLIENT_INTENT] + U32(node) + ([event] + payload)
    case ClientNav(text) => [OP_CLIENT_NAV] + text
    case ClientHello(major, minor) => [OP_CLIENT_HELLO, major, minor]
    case ClientAuth(credId, authData, clientData, signature) =>
      [OP_CLIENT_AUTH] + (Field(credId) + (Field(authData) + (Field(clientData) + Field(signature))))
    case ClearChildren(parent) => [OP_CLEAR_CHILDREN] + U32(parent)
    case SwapNodes(nodeA, nodeB) => [OP_SWAP_NODES] + U32(nodeA) + U32(nodeB)
    case BatchText(updates) => [OP_BATCH_TEXT] + (U16(|updates|) + EncodeUpdates(updates))
  }

  function EncodeAll(msgs: seq<Msg>): seq<byte>
    decreases msgs
  {
    if msgs == [] then [] else Frame(Body(msgs[0])) + EncodeAll(msgs[1..])
  }

  ghost predicate FitsField(s: Str) {
    |s| < 0x1_0000
  }

  /** The field widths within which the encoder loses nothing. */
  ghost predicate Fits(m: Msg)
    decreases m
  {
    && |Body(m)| < 0x1_0000_0000
    && match m
       case SetAttr(_, key, _) => 0 !in key
       case SetStyle(_, key, _) => 0 !in key
       case InsertNode(_, _, _, tag, attrs) =>
         && |tag| < 0x100
         && |attrs| < 0x1_0000
         && (forall a | a in attrs :: FitsField(a.0) && FitsField(a.1))
       case Batch(children) => forall c | c in children :: Fits(c)
       case Error(text) => FitsField(text)
       case AuthChallenge(rpId, challenge) => |rpId| < 0x100 && |challenge| == 32
       case ClientAuth(a, b, c, d) => FitsField(a) && FitsField(b) && FitsField(c) && FitsField(d)
       case BatchText(updates) => |updates| < 0x1_0000 && (forall u | u in updates :: FitsField(u.1))
       case _ => true
  }

  ghost predicate AllFit(msgs: seq<Msg>) {
    forall m | m in msgs :: Fits(m)
  }
}
