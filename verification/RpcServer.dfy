/**
 The dispatcher: a request is parsed into a tree, its function is looked up in the
 registry, and it is either handed to that function or answered with an error
 reply. What leaves the server is kept in a log.
 */
module RpcServer {
  import opened MsgPack
  import opened Encoding
  import opened Format
  import opened Plans
  import BuildPages
  import Sites
  import Writing
  import opened TreeParser
  import ParseState
  import Nodes
  import RpcHash

  const SERVER_NAME_SIZE: nat := 32
  const POOL_COUNT: nat := 128
  const CSTR_SIZE: nat := 128
  const REPLY_SIZE: nat := 256

  /**
   * What the server does for others to see: it calls a function, or publishes a reply; `size` bytes of the topic are
   * sent.
   */
  datatype Event = Called(handler: nat, request: seq<byte>) | Replied(topic: seq<byte>, size: nat, body: seq<byte>)

  function Ascii(s: string): (b: seq<byte>)
    ensures |b| == |s| && forall i :: 0 <= i < |s| && s[i] as int < 0x80 ==> b[i] == s[i] as int
  {
    if s == [] then [] else [s[0] as int % 0x80] + Ascii(s[1..])
  }

  // ---- the error reply

  function ErrorValue(cause: seq<byte>, name: seq<byte>): Value {
    Array([Str(Ascii("ERROR")), Map([Str(Ascii("cause")), Str(cause), Str(Ascii("server")), Str(name)])])
  }

  function ErrorPlan(cause: seq<byte>, name: seq<byte>): Plan {
    Built(ArrayKind, [Text(Ascii("ERROR")),
                      Built(MapKind, [Text(Ascii("cause")), Text(cause), Text(Ascii("server")), Text(name)])])
  }

  /** The strings of the protocol. */
  lemma ReplyStrings()
    ensures Ascii("ERROR") == [0x45, 0x52, 0x52, 0x4f, 0x52] && Ascii("cause") == [0x63, 0x61, 0x75, 0x73, 0x65]
    ensures Ascii("server") == [0x73, 0x65, 0x72, 0x76, 0x65, 0x72]
  {
    hide Ascii;
  }

  lemma RequestIdString()
    ensures Ascii("request_id") == [0x72, 0x65, 0x71, 0x75, 0x65, 0x73, 0x74, 0x5f, 0x69, 0x64]
  {
    hide Ascii;
  }

  lemma UnsupportedString()
    ensures UNSUPPORTED == [0x75, 0x6e, 0x73, 0x75, 0x70, 0x70, 0x6f, 0x72, 0x74, 0x65, 0x64, 0x20,
                            0x66, 0x75, 0x6e, 0x63, 0x74, 0x69, 0x6f, 0x6e]
  {
    hide Ascii;
  }

  /** The bytes of a short string, and of short containers. */
  lemma {:induction false} ShortBytes(s: seq<byte>, a: seq<Value>, m: seq<Value>)
    ensures |s| <= 31 ==> WellFormed(Str(s)) && Encode(Str(s)) == [0xa0 + |s|] + s
    ensures |a| <= 15 && AllWellFormed(a) ==> WellFormed(Array(a)) && Encode(Array(a)) == [0x90 + |a|] + EncodeAll(a)
    ensures |m| <= 31 && |m| % 2 == 0 && AllWellFormed(m) ==>
              WellFormed(Map(m)) && Encode(Map(m)) == [0x80 + |m| / 2] + EncodeAll(m)
  {
    hide EncodeTag, Encode, EncodeAll, AllWellFormed;
    if |s| <= 31 {
      ValueBytes(Str(s));
      TagBytes(StrTag(|s|));
    }
    if |a| <= 15 && AllWellFormed(a) {
      ValueBytes(Array(a));
      TagBytes(ArrayTag(|a|));
    }
    if |m| <= 31 && |m| % 2 == 0 && AllWellFormed(m) {
      ValueBytes(Map(m));
      TagBytes(MapTag(|m| / 2));
    }
  }

  lemma {:induction false} TwoEncoded(v: Value, w: Value)
    requires WellFormed(v) && WellFormed(w)
    ensures AllWellFormed([v, w]) && EncodeAll([v, w]) == Encode(v) + Encode(w)
  {
    hide Encode, WellFormed;
    assert [v, w][1..] == [w] && [w][1..] == [] && EncodeAll([]) == [];
    assert AllWellFormed([w]) && EncodeAll([w]) == Encode(w) + [] == Encode(w);
  }

  /** The bytes of a reply. */
  lemma {:induction false} ReplyBytes(cause: seq<byte>, name: seq<byte>)
    requires |cause| <= 31 && |name| <= 31
    ensures WellFormed(ErrorValue(cause, name))
    ensures Encode(ErrorValue(cause, name)) ==
              [0x92, 0xa5, 0x45, 0x52, 0x52, 0x4f, 0x52, 0x82]
              + [0xa5, 0x63, 0x61, 0x75, 0x73, 0x65] + ([0xa0 + |cause|] + cause)
              + [0xa6, 0x73, 0x65, 0x72, 0x76, 0x65, 0x72] + ([0xa0 + |name|] + name)
  {
    hide Ascii, Encode, EncodeAll, WellFormed, AllWellFormed;
    var m := [Str(Ascii("cause")), Str(cause), Str(Ascii("server")), Str(name)];
    CauseBytes(cause, name);
    ShortBytes(Ascii("ERROR"), [], []);
    TwoEncoded(Str(Ascii("ERROR")), Map(m));
    ShortBytes([], [Str(Ascii("ERROR")), Map(m)], []);
    ReplyStrings();
    assert [0x92] + ([0xa5] + Ascii("ERROR")) + [0x82] == [0x92, 0xa5, 0x45, 0x52, 0x52, 0x4f, 0x52, 0x82];
    assert [0xa5] + Ascii("cause") == [0xa5, 0x63, 0x61, 0x75, 0x73, 0x65];
    assert [0xa6] + Ascii("server") == [0xa6, 0x73, 0x65, 0x72, 0x76, 0x65, 0x72];
  }

  lemma {:induction false} CauseBytes(cause: seq<byte>, name: seq<byte>)
    requires |cause| <= 31 && |name| <= 31
    ensures var v := Map([Str(Ascii("cause")), Str(cause), Str(Ascii("server")), Str(name)]);
            && WellFormed(v)
            && Encode(v) == [0x82] + ([0xa5] + Ascii("cause") + ([0xa0 + |cause|] + cause)
                                      + ([0xa6] + Ascii("server")) + ([0xa0 + |name|] + name))
  {
    hide Ascii, Encode, EncodeAll, WellFormed, AllWellFormed;
    var m := [Str(Ascii("cause")), Str(cause), Str(Ascii("server")), Str(name)];
    ShortBytes(Ascii("cause"), [], []);
    ShortBytes(cause, [], []);
    ShortBytes(Ascii("server"), [], []);
    ShortBytes(name, [], []);
    FourEncoded(m[0], m[1], m[2], m[3]);
    ShortBytes([], [], m);
  }

  lemma {:induction false} FourEncoded(a: Value, b: Value, c: Value, d: Value)
    requires WellFormed(a) && WellFormed(b) && WellFormed(c) && WellFormed(d)
    ensures AllWellFormed([a, b, c, d])
    ensures EncodeAll([a, b, c, d]) == Encode(a) + Encode(b) + Encode(c) + Encode(d)
  {
    hide Encode, WellFormed;
    TwoEncoded(c, d);
    var t := [a, b, c, d][1..];
    assert t == [b, c, d] && t[1..] == [c, d];
    assert EncodeAll(t) == Encode(b) + (Encode(c) + Encode(d));
  }

  /** The calls of `rpc_encode_error_request_reply`. */
  function ErrorCalls(cause: seq<byte>, name: seq<byte>): seq<Call> {
    [Call.Build(ArrayKind), PutStr(Ascii("ERROR")),
     Call.Build(MapKind), PutStr(Ascii("cause")), PutStr(cause), PutStr(Ascii("server")), PutStr(name),
         Complete(MapKind),
     Complete(ArrayKind)]
  }

  /** Plans that are strings. */
  function Texts(ps: seq<seq<byte>>): seq<Plan> {
    if ps == [] then [] else Texts(ps[..|ps| - 1]) + [Text(ps[|ps| - 1])]
  }

  function PutStrs(ps: seq<seq<byte>>): seq<Call> {
    if ps == [] then [] else PutStrs(ps[..|ps| - 1]) + [PutStr(ps[|ps| - 1])]
  }

  function Strs(ps: seq<seq<byte>>): (vs: seq<Value>)
    ensures |vs| == |ps|
  {
    if ps == [] then [] else Strs(ps[..|ps| - 1]) + [Str(ps[|ps| - 1])]
  }

  lemma {:induction false} TextsPlan(ps: seq<seq<byte>>)
    requires forall i :: 0 <= i < |ps| ==> |ps[i]| < U32
    ensures AllProper(Texts(ps)) && AllBalanced(Texts(ps)) && |Texts(ps)| == |ps|
    ensures CallsAll(Texts(ps)) == PutStrs(ps) && MeantAll(Texts(ps)) == Strs(ps)
  {
    if ps != [] {
      TextsPlan(ps[..|ps| - 1]);
      var ts := Texts(ps);
      assert ts[..|ts| - 1] == Texts(ps[..|ps| - 1]);
    }
  }

  lemma {:induction false} FourTexts(a: seq<byte>, b: seq<byte>, c: seq<byte>, d: seq<byte>)
    ensures Texts([a, b, c, d]) == [Text(a), Text(b), Text(c), Text(d)]
    ensures PutStrs([a, b, c, d]) == [PutStr(a), PutStr(b), PutStr(c), PutStr(d)]
    ensures Strs([a, b, c, d]) == [Str(a), Str(b), Str(c), Str(d)]
  {
    TextsSnoc([], a);
    TextsSnoc([a], b);
    TextsSnoc([a, b], c);
    TextsSnoc([a, b, c], d);
    assert [] + [a] == [a] && [a] + [b] == [a, b] && [a, b] + [c] == [a, b, c] && [a, b, c] + [d] == [a, b, c, d];
  }

  lemma {:induction false} TextsSnoc(ps: seq<seq<byte>>, p: seq<byte>)
    ensures Texts(ps + [p]) == Texts(ps) + [Text(p)] && PutStrs(ps + [p]) == PutStrs(ps) + [PutStr(p)]
    ensures Strs(ps + [p]) == Strs(ps) + [Str(p)]
  {
    assert (ps + [p])[..|ps|] == ps;
  }

  function Details(cause: seq<byte>, name: seq<byte>): seq<seq<byte>> {
    [Ascii("cause"), cause, Ascii("server"), name]
  }

  /** The calls write the plan of the error value. */
  lemma {:induction false} ErrorPlanned(cause: seq<byte>, name: seq<byte>)
    requires |cause| < U32 && |name| < U32
    ensures var ps := [ErrorPlan(cause, name)];
            && AllProper(ps) && AllBalanced(ps)
            && CallsAll(ps) == ErrorCalls(cause, name) && MeantAll(ps) == [ErrorValue(cause, name)]
  {
    hide Ascii, AllProper, AllBalanced, Texts, PutStrs, Strs, Meant, MeantAll, Calls, CallsAll;
    TextsPlan(Details(cause, name));
    FourTexts(Ascii("cause"), cause, Ascii("server"), name);
    var e, m := Text(Ascii("ERROR")), Built(MapKind, Texts(Details(cause, name)));
    BuiltParts(MapKind, Texts(Details(cause, name)));
    TextParts(Ascii("ERROR"));
    TwoItems(e, m);
    BuiltParts(ArrayKind, [e, m]);
    OneItem(ErrorPlan(cause, name));
  }

  lemma StrSize(s: seq<byte>)
    requires |s| < U32
    ensures WellFormed(Str(s)) && |Encode(Str(s))| == |EncodeTag(StrTag(|s|))| + |s|
    ensures |s| <= 31 ==> |Encode(Str(s))| == 1 + |s|
  {
  }

  /** The size of an error reply. */
  lemma {:induction false} ErrorSize(cause: seq<byte>, name: seq<byte>)
    requires |cause| < U32 && |name| < U32
    ensures var v := ErrorValue(cause, name);
            WellFormed(v) && |Encode(v)| == 21 + |Encode(Str(cause))| + |Encode(Str(name))| >= |cause| + |name|
    ensures |cause| <= 31 && |name| <= 31 ==> |Encode(ErrorValue(cause, name))| == 23 + |cause| + |name|
  {
    hide Ascii, Encode, WellFormed, AllWellFormed, EncodeAll;
    StrSize(Ascii("ERROR"));
    StrSize(Ascii("cause"));
    StrSize(Ascii("server"));
    StrSize(cause);
    StrSize(name);
    var m := [Str(Ascii("cause")), Str(cause), Str(Ascii("server")), Str(name)];
    FourEncoded(m[0], m[1], m[2], m[3]);
    EncodesContainer(MapKind, m);
    TwoEncoded(Str(Ascii("ERROR")), Map(m));
    EncodesContainer(ArrayKind, [Str(Ascii("ERROR")), Map(m)]);
  }

  lemma {:induction false} CostStep(g: BuildPages.Geometry, cs: seq<Call>, k: nat)
    requires k < |cs|
    ensures Sites.CostAll(g, cs[..k + 1]) == Sites.CostAll(g, cs[..k]) + Sites.Cost(g, cs[k])
  {
    assert cs[..k + 1][..k] == cs[..k];
  }

  lemma CostNothing(g: BuildPages.Geometry)
    ensures Sites.CostAll(g, []) == 0
  {
  }

  lemma {:induction false} ErrorCost(g: BuildPages.Geometry, cause: seq<byte>, name: seq<byte>)
    requires |cause| < U32 && |name| < U32
    ensures Sites.CostAll(g, ErrorCalls(cause, name)) == 2 * (g.alignment + g.buildSize) + 61 + |cause| + |name|
  {
    hide Ascii, Sites.CostAll;
    var cs := ErrorCalls(cause, name);
    CostNothing(g);
    assert cs[..0] == [] && cs[..9] == cs;
    CostStep(g, cs, 0);
    CostStep(g, cs, 1);
    CostStep(g, cs, 2);
    CostStep(g, cs, 3);
    CostStep(g, cs, 4);
    CostStep(g, cs, 5);
    CostStep(g, cs, 6);
    CostStep(g, cs, 7);
    CostStep(g, cs, 8);
  }

  /** Names and causes of up to a page, roughly, are no trouble for the builder. */
  lemma {:induction false} ErrorSeen(cause: seq<byte>, name: seq<byte>)
    requires |cause| + |name| <= 3907
    ensures forall i :: 0 <= i < |ErrorCalls(cause, name)| ==> Typed(ErrorCalls(cause, name)[i])
    ensures !Sites.Misses(BuildPages.DEFAULT_GEOMETRY, ErrorCalls(cause, name))
  {
    hide Ascii, Sites.CostAll, Sites.SiteRun;
    ErrorCost(BuildPages.DEFAULT_GEOMETRY, cause, name);
    Sites.SmallRunSeen(BuildPages.DEFAULT_GEOMETRY, ErrorCalls(cause, name));
  }

  /**
   * `rpc_encode_error_request_reply`; `size` is the writer's place afterwards. The buffer holds the reply exactly if it
   * is long enough; the writer's error is not looked at, so without enough room something else is sent.
   */
  method EncodeErrorReply(cause: seq<byte>, name: seq<byte>, buffer: array<byte>) returns (size: nat)
    requires |cause| < U32 && |name| < U32
    modifies buffer
    ensures size <= buffer.Length && WellFormed(ErrorValue(cause, name))
    ensures forall i :: 0 <= i < |ErrorCalls(cause, name)| ==> Typed(ErrorCalls(cause, name)[i])
    ensures !Sites.Misses(BuildPages.DEFAULT_GEOMETRY, ErrorCalls(cause, name)) ==>
              (buffer[..size] == Encode(ErrorValue(cause, name)) <==>
                  |Encode(ErrorValue(cause, name))| <= buffer.Length)
  {
    hide Encode, EncodeAll, WellFormed, AllWellFormed, Proper, AllProper, AllBalanced, Balanced, ErrorCalls, ErrorValue,
         MeantAll, CallsAll, EmittedAll, Writing.Writer.Valid, Sites.SiteRun, Sites.Flushes, Ascii;
    var w := new Writing.Writer.Fixed(BuildPages.DEFAULT_GEOMETRY, buffer);
    ErrorSize(cause, name);
    ErrorPlanned(cause, name);
    OneEncoded(ErrorValue(cause, name));
    w.WritePlans([ErrorPlan(cause, name)]);
    size := w.position - w.base;
  }

  // ---- what a request asks for

  /** The C string in a buffer: the bytes before the first zero. */
  function CstrOf(b: seq<byte>): seq<byte> {
    if b == [] || b[0] == 0 then [] else [b[0]] + CstrOf(b[1..])
  }

  lemma {:induction false} CstrFound(b: seq<byte>, s: seq<byte>)
    requires |s| < |b| && b[..|s| + 1] == s + [0] && 0 !in s
    ensures CstrOf(b) == s
  {
    assert b[0] == b[..|s| + 1][0];
    if s != [] {
      assert b[1..][..|s|] == b[..|s| + 1][1..] == s[1..] + [0];
      CstrFound(b[1..], s[1..]);
    }
  }

  /** The size field of a node; scalars have none, so `stale` stands for what the memory held before. */
  function SizeField(v: Value, stale: nat): nat {
    match v
    case Str(s) => |s|
    case Bin(s) => |s|
    case Array(es) => |es|
    case Map(kvs) => |kvs| / 2
    case _ => stale
  }

  /** The topic of a reply, and how many bytes of it are sent. */
  datatype Topic = NoTopic | Topic(bytes: seq<byte>, size: nat)

  function TopicFor(kvs: seq<Value>, stale: nat): Topic {
    match Nodes.LookedUp(kvs, Ascii("request_id"))
    case Unique(v) =>
      var n := SizeField(v, stale);
      if n == 0 then NoTopic
      else if v.Str? && Nodes.FitsCstr(v.s, CSTR_SIZE) then Topic(v.s + Zeros(CSTR_SIZE - n), n)
      else Topic(Zeros(CSTR_SIZE), n)
    case _ => NoTopic
  }

  /** A tree with a node pool of the given size accepts the message. */
  predicate Accepted(data: seq<byte>) {
    Decode(data, 0, 1).Done? && Decode(data, 0, 1).nodes <= POOL_COUNT
  }

  /** An array with a map in front. */
  predicate IsCall(v: Value) {
    v.Array? && v.elems != [] && v.elems[0].Map?
  }

  /** The name that is looked up: empty if it cannot be copied. */
  function NameIn(v: Value): seq<byte>
    requires IsCall(v)
  {
    if HasName(v) then v.elems[1].s else []
  }

  predicate HasName(v: Value)
    requires IsCall(v)
  {
    |v.elems| >= 2 && v.elems[1].Str? && Nodes.FitsCstr(v.elems[1].s, CSTR_SIZE)
  }

  function HandlerFor(m: map<RpcHash.Key, nat>, name: seq<byte>): nat {
    if name in m then m[name] else 0
  }

  lemma HandlerFound(m: map<RpcHash.Key, nat>, name: seq<byte>)
    ensures HandlerFor(m, name) == if name in m then m[name] else 0
  {
  }

  const UNSUPPORTED: seq<byte> := Ascii("unsupported function")

  /**
   * What an incoming message makes the server do; the functions are the registered ones, zero being the null pointer.
   */
  function Dispatched(data: seq<byte>, m: map<RpcHash.Key, nat>, name: seq<byte>, stale: nat): seq<Event>
    requires |name| < SERVER_NAME_SIZE
  {
    if !Accepted(data) then [] else
    var v := Decode(data, 0, 1).vals[0];
    if !IsCall(v) then [] else
    var f := HandlerFor(m, NameIn(v));
    if f != 0 then [Called(f, data)]
    else if !HasName(v) || |v.elems| < 3 then []   // the tree has an error by now
    else ErrorEvents(v.elems[0].kvs, UNSUPPORTED, name, stale)
  }

  /** An error reply under the topic that the request asks for. */
  function ErrorEvents(kvs: seq<Value>, cause: seq<byte>, name: seq<byte>, stale: nat): seq<Event>
    requires |cause| <= 31 && |name| < SERVER_NAME_SIZE
  {
    match TopicFor(kvs, stale)
    case NoTopic => []
    case Topic(b, n) =>
      ErrorSize(cause, name);
      [Replied(b[..if n < CSTR_SIZE then n else CSTR_SIZE], n, Encode(ErrorValue(cause, name)))]
  }

  // ---- runs of the server

  datatype Input = Register(key: RpcHash.Key, handler: nat) | Message(data: seq<byte>, stale: nat)

  function Registered(m: map<RpcHash.Key, nat>, inputs: seq<Input>): map<RpcHash.Key, nat> {
    if inputs == [] then m else
    var before := Registered(m, inputs[..|inputs| - 1]);
    match inputs[|inputs| - 1]
    case Register(key, handler) => before[key := handler]
    case Message(_, _) => before
  }

  function Served(m: map<RpcHash.Key, nat>, inputs: seq<Input>, name: seq<byte>): seq<Event>
    requires |name| < SERVER_NAME_SIZE
  {
    if inputs == [] then [] else
    var front := inputs[..|inputs| - 1];
    Served(m, front, name) + match inputs[|inputs| - 1]
                             case Register(_, _) => []
                             case Message(data, stale) => Dispatched(data, Registered(m, front), name, stale)
  }

  class Server {
    const name: seq<byte>
    const table: RpcHash.Hash<nat>
    var log: seq<Event>

    ghost predicate Valid()
      reads this, table, table.table, table.table.keys, table.table.vals, table.table.flags, table.table.flags.words
    {
      |name| < SERVER_NAME_SIZE && table.Valid() && this !in table.Repr()
    }

    /** `rpc_server_init`, without the sockets. */
    constructor (name: seq<byte>, hash: RpcHash.Key -> nat)
      requires |name| < SERVER_NAME_SIZE
      ensures Valid() && fresh(table.Repr()) && table.Contents() == map[] && log == [] && this.name == name
    {
      this.name, log := name, [];
      table := new RpcHash.Hash(hash);
    }

    /** `rpc_register_method`. */
    method RegisterMethod(key: RpcHash.Key, handler: nat)
      requires Valid()
      modifies table.Repr()
      ensures Valid() && fresh(table.Repr() - old(table.Repr()))
                && table.Contents() == old(table.Contents())[key := handler]
    {
      table.Set(key, handler);
    }

    /** `rpc_get_callfunc`; a function that is not registered is the null pointer, zero. */
    method GetCallfunc(key: RpcHash.Key) returns (handler: nat)
      requires Valid()
      ensures handler == if key in table.Contents() then table.Contents()[key] else 0
    {
      var h := table.Get(key);
      handler := if h.Some? then h.value else 0;
    }

    /** `rpc_send_reply`: topic and message are published. */
    method SendReply(topic: array<byte>, topicLen: nat, msg: array<byte>, msgLen: nat)
      requires msgLen <= msg.Length
      modifies this`log
      ensures var n := if topicLen < topic.Length then topicLen else topic.Length;
              log == old(log) + [Replied(topic[..n], topicLen, msg[..msgLen])]
    {
      var n := if topicLen < topic.Length then topicLen else topic.Length;
      log := log + [Replied(topic[..n], topicLen, msg[..msgLen])];
    }

    /** `rpc_msg_get_request_id`. */
    method GetRequestId(t: Tree, r: Nodes.Ref, id: array<byte>, stale: nat, ghost v: Value) returns (size: nat)
      requires Nodes.Denotes(t, r, v) && id.Length == CSTR_SIZE && id[..] == Zeros(CSTR_SIZE)
      modifies t`error, id
      ensures if v.Map? && old(t.error) == Ok && TopicFor(v.kvs, stale).Topic?
              then size == TopicFor(v.kvs, stale).size && id[..] == TopicFor(v.kvs, stale).bytes
              else size == 0
    {
      hide Ascii;
      Nodes.DenotesKind(t, r, v);
      if !Nodes.TagOf(t, r).MapTag? { return 0; }
      var u := Nodes.MapCstr(t, r, Ascii("request_id"), v);
      if u.NilNode? { return 0; }
      ghost var w := Nodes.LookedUp(v.kvs, Ascii("request_id")).value;
      Nodes.DenotesKind(t, u, w);
      size := LenOf(t, u, stale, w);
      if size == 0 { return; }
      Nodes.CopyCstr(t, u, id, CSTR_SIZE, w);
      Copied(id[..], w, CSTR_SIZE);
    }

    /** `node.data->len` */
    method LenOf(t: Tree, r: Nodes.Ref, stale: nat, ghost v: Value) returns (n: nat)
      requires Nodes.Denotes(t, r, v) && r.At?
      ensures n == SizeField(v, stale)
    {
      Nodes.DenotesKind(t, r, v);
      match Nodes.TagOf(t, r)
      case StrTag(k) => n := k;
      case BinTag(k) => n := k;
      case ArrayTag(k) => n := k;
      case MapTag(k) => n := k;
      case _ => n := stale;
    }

    /** `rpc_send_error_reply`. */
    method SendErrorReply(t: Tree, root: Nodes.Ref, cause: seq<byte>, stale: nat, ghost v: Value)
      requires |name| < SERVER_NAME_SIZE && Nodes.Denotes(t, root, v) && |cause| <= 31
      modifies t`error, this`log
      ensures log == old(log) + if old(t.error) == Ok && IsCall(v)
                                then ErrorEvents(v.elems[0].kvs, cause, name, stale) else []
    {
      hide Encode, ErrorValue, TopicFor, Ascii, ParseState.Represents;
      var id, buffer := new byte[CSTR_SIZE](_ => 0), new byte[REPLY_SIZE](_ => 0);
      assert id[..] == Zeros(CSTR_SIZE);
      var first := Nodes.ArrayAt(t, root, 0, v);
      ghost var w := if first.At? then v.elems[0] else Nil;
      var size := GetRequestId(t, first, id, stale, w);
      if size == 0 {
        TopicHasSize(w, stale);
        return;
      }
      ErrorSize(cause, name);
      ErrorSeen(cause, name);
      var n := EncodeErrorReply(cause, name, buffer);
      SendReply(id, size, buffer, n);
    }

    /** `rpc_msg_handler`; `stale` is what node memory held before. */
    method MsgHandler(data: seq<byte>, stale: nat)
      requires Valid()
      modifies this`log
      ensures log == old(log) + Dispatched(data, table.Contents(), name, stale)
    {
      hide Decode, ErrorEvents, NameIn, HasName, HandlerFor, RpcHash.Hash.Valid, Tree.Valid, ParseState.Represents;
      var tree := new Tree.Pool(data, POOL_COUNT);
      tree.AcceptsSmall(data);
      tree.Parse();
      ghost var v := if tree.error == Ok then tree.Current() else Nil;
      var root := Nodes.Root(tree);
      Nodes.DenotesKind(tree, root, v);
      if !Nodes.TagOf(tree, root).ArrayTag? { return; }
      var map0 := Nodes.ArrayAt(tree, root, 0, v);
      ghost var w := if map0.At? then v.elems[0] else Nil;
      Nodes.DenotesKind(tree, map0, w);
      if !Nodes.TagOf(tree, map0).MapTag? { return; }
      HandleCall(tree, root, data, stale, v);
    }

    /** The rest of the handler, once the message is known to be an array with a map in front. */
    method HandleCall(t: Tree, root: Nodes.Ref, data: seq<byte>, stale: nat, ghost v: Value)
      requires Valid() && t.error == Ok && Nodes.Denotes(t, root, v) && IsCall(v)
      modifies t`error, this`log
      ensures log == old(log) +
                var f := HandlerFor(table.Contents(), NameIn(v));
                if f != 0 then [Called(f, data)]
                else if !HasName(v) || |v.elems| < 3 then []
                else ErrorEvents(v.elems[0].kvs, UNSUPPORTED, name, stale)
      ensures HandlerFor(table.Contents(), NameIn(v)) != 0 ==> (t.error == Ok <==> HasName(v) && |v.elems| >= 3)
    {
      hide ErrorEvents, HandlerFor, RpcHash.Hash.Valid, Ascii, ParseState.Represents;
      var func := Nodes.ArrayAt(t, root, 1, v);
      ghost var w := if func.At? then v.elems[1] else Nil;
      var cstr := new byte[CSTR_SIZE](_ => 0);
      assert cstr[..] == Zeros(CSTR_SIZE);
      Nodes.CopyCstr(t, func, cstr, CSTR_SIZE, w);
      Copied(cstr[..], w, CSTR_SIZE);
      var paras := Nodes.ArrayAt(t, root, 2, v);
      var f := GetCallfunc(CstrOf(cstr[..]));
      HandlerFound(table.Contents(), NameIn(v));
      if f != 0 {
        log := log + [Called(f, data)];
      } else {
        SendErrorReply(t, root, UNSUPPORTED, stale, v);
      }
    }

    /** Any run of registrations and incoming messages. */
    method Serve(inputs: seq<Input>)
      requires Valid()
      modifies this`log, table.Repr()
      ensures Valid() && fresh(table.Repr() - old(table.Repr()))
      ensures table.Contents() == Registered(old(table.Contents()), inputs)
      ensures log == old(log) + Served(old(table.Contents()), inputs, name)
    {
      hide Dispatched, RpcHash.Hash.Valid, RpcHash.Hash.Contents;
      ghost var m := table.Contents();
      for i := 0 to |inputs|
        invariant Valid() && fresh(table.Repr() - old(table.Repr()))
        invariant table.Contents() == Registered(m, inputs[..i])
        invariant log == old(log) + Served(m, inputs[..i], name)
      {
        assert inputs[..i + 1][..i] == inputs[..i];
        match inputs[i]
        case Register(key, handler) => RegisterMethod(key, handler);
        case Message(data, stale) => MsgHandler(data, stale);
      }
      assert inputs[..|inputs|] == inputs;
    }
  }

  lemma TopicHasSize(v: Value, stale: nat)
    ensures v.Map? && TopicFor(v.kvs, stale).Topic? ==>
              TopicFor(v.kvs, stale).size > 0 && |TopicFor(v.kvs, stale).bytes| == CSTR_SIZE
  {
  }

  /** A buffer that was zero holds the string, or still zeros. */
  lemma {:induction false} Copied(b: seq<byte>, v: Value, n: nat)
    requires |b| == n > 0
    requires if v.Str? && Nodes.FitsCstr(v.s, n)
             then b[..|v.s| + 1] == v.s + [0] && b[|v.s| + 1..] == Zeros(n)[|v.s| + 1..]
             else b[0] == 0 && b[1..] == Zeros(n)[1..]
    ensures b == if v.Str? && Nodes.FitsCstr(v.s, n) then v.s + Zeros(n - |v.s|) else Zeros(n)
    ensures CstrOf(b) == if v.Str? && Nodes.FitsCstr(v.s, n) then v.s else []
  {
    if v.Str? && Nodes.FitsCstr(v.s, n) {
      CstrFound(b, v.s);
      assert b == b[..|v.s| + 1] + b[|v.s| + 1..];
      assert v.s + [0] + Zeros(n)[|v.s| + 1..] == v.s + Zeros(n - |v.s|);
    } else {
      assert b == [b[0]] + b[1..];
    }
  }

  // ---- what the dispatcher promises

  /**
   * A request: an accepted message that is an array of at least three, with a map in front whose key `request_id`
   * occurs once and is the string `id`, and the function name `func` behind it.
   */
  ghost predicate IsRequest(data: seq<byte>, id: seq<byte>, func: seq<byte>) {
    && Accepted(data)
    && var v := Decode(data, 0, 1).vals[0];
    && IsCall(v) && |v.elems| >= 3
    && Nodes.LookedUp(v.elems[0].kvs, Ascii("request_id")) == Nodes.Unique(Str(id)) && id != []
        && Nodes.FitsCstr(id, CSTR_SIZE)
    && v.elems[1] == Str(func) && Nodes.FitsCstr(func, CSTR_SIZE)
  }

  /** No message causes more than one event, so none more than one call. */
  lemma {:induction false} AtMostOneEvent(data: seq<byte>, m: map<RpcHash.Key, nat>, name: seq<byte>, stale: nat)
    requires |name| < SERVER_NAME_SIZE
    ensures |Dispatched(data, m, name, stale)| <= 1
  {
    hide Decode, Ascii, ErrorValue, Encode;
  }

  /**
   * Messages that are ignored: those that do not decode, or not to at most 128 nodes, and those that are no array with
   * a map in front.
   */
  lemma {:induction false} IgnoredMessages(data: seq<byte>, m: map<RpcHash.Key, nat>, name: seq<byte>, stale: nat)
    requires |name| < 32
    requires var r := Decode(data, 0, 1);
             r.Fail? || r.nodes > 128
             || !(r.vals[0].Array? && r.vals[0].elems != [] && r.vals[0].elems[0].Map?)
    ensures Dispatched(data, m, name, stale) == []
  {
    hide Decode, ErrorEvents;
  }

  /** Any other message is handed to the function it names, whatever else is in it, if that is registered. */
  lemma {:induction false} NamedIsCalled(data: seq<byte>, kvs: seq<Value>, func: seq<byte>, rest: seq<Value>,
        m: map<RpcHash.Key, nat>, name: seq<byte>, stale: nat)
    requires |name| < 32 && |func| < 128 && 0 !in func && func in m && m[func] != 0
    requires var r := Decode(data, 0, 1);
             r.Done? && r.nodes <= 128 && r.vals[0] == Array([Map(kvs), Str(func)] + rest)
    ensures Dispatched(data, m, name, stale) == [Called(m[func], data)]
  {
    hide Decode, ErrorEvents;
    assert ([Map(kvs), Str(func)] + rest)[0] == Map(kvs) && ([Map(kvs), Str(func)] + rest)[1] == Str(func);
  }

  /** Without a name that can be copied the empty name is looked up, and no reply is sent. */
  lemma {:induction false} NamelessMessage(data: seq<byte>, kvs: seq<Value>, rest: seq<Value>,
        m: map<RpcHash.Key, nat>, name: seq<byte>, stale: nat)
    requires |name| < 32 && (rest == [] || !rest[0].Str? || |rest[0].s| >= 128 || 0 in rest[0].s)
    requires var r := Decode(data, 0, 1);
             r.Done? && r.nodes <= 128 && r.vals[0] == Array([Map(kvs)] + rest)
    ensures Dispatched(data, m, name, stale) == if [] in m && m[[]] != 0 then [Called(m[[]], data)] else []
  {
    hide Decode, ErrorEvents;
    assert ([Map(kvs)] + rest)[0] == Map(kvs);
    assert rest != [] ==> ([Map(kvs)] + rest)[1] == rest[0];
  }

  /** A function that is not registered, and a third element: there is a reply if there is a topic. */
  lemma {:induction false} UnregisteredIsAnswered(data: seq<byte>, kvs: seq<Value>, func: seq<byte>, rest: seq<Value>,
        m: map<RpcHash.Key, nat>, name: seq<byte>, stale: nat)
    requires |name| < 32 && |func| < 128 && 0 !in func && (func !in m || m[func] == 0) && rest != []
    requires var r := Decode(data, 0, 1);
             r.Done? && r.nodes <= 128 && r.vals[0] == Array([Map(kvs), Str(func)] + rest)
    ensures WellFormed(ErrorValue(UNSUPPORTED, name))
    ensures var t := TopicFor(kvs, stale);
            && (t.Topic? ==> |t.bytes| == 128)
            && Dispatched(data, m, name, stale) ==
                 if t.NoTopic? then []
                 else [Replied(t.bytes[..if t.size < 128 then t.size else 128], t.size,
                               Encode(ErrorValue(UNSUPPORTED, name)))]
  {
    hide Decode, Encode, ErrorValue, TopicFor, ErrorEvents, Ascii, WellFormed;
    assert ([Map(kvs), Str(func)] + rest)[0] == Map(kvs) && ([Map(kvs), Str(func)] + rest)[1] == Str(func);
    EventsOf(kvs, UNSUPPORTED, name, stale);
  }

  lemma EventsOf(kvs: seq<Value>, cause: seq<byte>, name: seq<byte>, stale: nat)
    requires |cause| <= 31 && |name| < 32
    ensures WellFormed(ErrorValue(cause, name))
    ensures var t := TopicFor(kvs, stale);
            && (t.Topic? ==> |t.bytes| == 128)
            && ErrorEvents(kvs, cause, name, stale) ==
                 if t.NoTopic? then []
                 else [Replied(t.bytes[..if t.size < 128 then t.size else 128], t.size,
                               Encode(ErrorValue(cause, name)))]
  {
    hide Encode, ErrorValue, TopicFor, Ascii, WellFormed;
    ErrorSize(cause, name);
    TopicHasSize(Map(kvs), stale);
  }

  /**
   * The topic of a reply, when the key `request_id` is at `i` only: a string of at most 127 bytes without a zero, and
   * otherwise zeros, with the size of whatever is there instead. Scalars have no size.
   */
  lemma {:induction false} TopicOf(kvs: seq<Value>, i: nat, stale: nat)
    requires Nodes.IsKey(kvs, Ascii("request_id"), i)
    requires forall j: nat :: Nodes.IsKey(kvs, Ascii("request_id"), j) ==> j == i
    ensures var t, zeros := TopicFor(kvs, stale), Zeros(128);
            match kvs[2 * i + 1]
            case Str(s) =>
              if s == [] then t == NoTopic
              else if |s| <= 127 && 0 !in s then t == Topic(s + Zeros(128 - |s|), |s|)
              else t == Topic(zeros, |s|)
            case Bin(s) => t == if s == [] then NoTopic else Topic(zeros, |s|)
            case Array(es) => t == if es == [] then NoTopic else Topic(zeros, |es|)
            case Map(es) => t == if |es| / 2 == 0 then NoTopic else Topic(zeros, |es| / 2)
            case _ => t == if stale == 0 then NoTopic else Topic(zeros, stale)
  {
    hide Ascii;
    Nodes.LookedUpMeans(kvs, Ascii("request_id"));
  }

  /** Without such a key, or with several of them, there is no reply. */
  lemma {:induction false} NoTopicOf(kvs: seq<Value>, key: seq<byte>, i: nat, j: nat, stale: nat)
    requires key == Ascii("request_id")
    requires if i < j then Nodes.IsKey(kvs, key, i) && Nodes.IsKey(kvs, key, j)
             else forall k: nat :: !Nodes.IsKey(kvs, key, k)
    ensures TopicFor(kvs, stale) == NoTopic
  {
    hide Ascii;
    Nodes.LookedUpMeans(kvs, key);
    if i < j { assert Nodes.LookedUp(kvs, key).Twice?; } else { assert Nodes.LookedUp(kvs, key).Absent?; }
  }

  /** A request for a registered function is handed to it, and to nothing else. */
  lemma RegisteredIsCalled(data: seq<byte>, id: seq<byte>, func: seq<byte>, m: map<RpcHash.Key, nat>,
        name: seq<byte>, stale: nat)
    requires |name| < SERVER_NAME_SIZE && IsRequest(data, id, func) && func in m && m[func] != 0
    ensures Dispatched(data, m, name, stale) == [Called(m[func], data)]
  {
    hide Decode, Ascii, ErrorEvents;
  }

  /**
   * So is the message `[{}, func]`, which is no request; its arguments were looked for by then, and the tree has an
   * error.
   */
  lemma CalledAfterError(func: seq<byte>, m: map<RpcHash.Key, nat>, name: seq<byte>, stale: nat)
    requires |name| < SERVER_NAME_SIZE && Nodes.FitsCstr(func, CSTR_SIZE) && func in m && m[func] != 0
    ensures var v := Array([Map([]), Str(func)]);
            WellFormed(v) && Dispatched(Encode(v), m, name, stale) == [Called(m[func], Encode(v))]
            && forall id, f :: !IsRequest(Encode(v), id, f)
  {
    hide Decode, Encode, ErrorEvents;
    var v := Array([Map([]), Str(func)]);
    EmptyMap();
    TwoEncoded(Map([]), Str(func));
    StrsNormal(Map([]), Str(func));
    NodesPair(Map([]), Str(func));
    RoundTripPrefix(v, []);
    assert Encode(v) + [] == Encode(v);
  }

  lemma EmptyMap()
    ensures WellFormed(Map([])) && Normal(Map([])) == Map([]) && Encoding.Nodes(Map([])) == 1
  {
  }

  /**
   * A request for a function that is not registered gets one reply: its topic is the request's id, it fits the reply
   * buffer, and it decodes to the cause and the server's name.
   */
  lemma {:induction false} UnregisteredGetsReply(data: seq<byte>, id: seq<byte>, func: seq<byte>,
        m: map<RpcHash.Key, nat>, name: seq<byte>, stale: nat)
    returns (body: seq<byte>)
    requires |name| < SERVER_NAME_SIZE && IsRequest(data, id, func) && (func !in m || m[func] == 0)
    ensures Dispatched(data, m, name, stale) == [Replied(id, |id|, body)]
    ensures |body| == 43 + |name| <= REPLY_SIZE
    ensures body == [0x92, 0xa5, 0x45, 0x52, 0x52, 0x4f, 0x52, 0x82]
                    + [0xa5, 0x63, 0x61, 0x75, 0x73, 0x65]
                    + [0xb4, 0x75, 0x6e, 0x73, 0x75, 0x70, 0x70, 0x6f, 0x72, 0x74, 0x65, 0x64, 0x20,
                       0x66, 0x75, 0x6e, 0x63, 0x74, 0x69, 0x6f, 0x6e]
                    + [0xa6, 0x73, 0x65, 0x72, 0x76, 0x65, 0x72] + ([0xa0 + |name|] + name)
    ensures Decode(body, 0, 1).Done? && Decode(body, 0, 1).next == |body|
    ensures Decode(body, 0, 1).vals == [ErrorValue(UNSUPPORTED, name)]
  {
    hide Decode, Ascii, ErrorValue, Encode, WellFormed, Normal;
    ErrorSize(UNSUPPORTED, name);
    UnsupportedReply(name);
    var v := ErrorValue(UNSUPPORTED, name);
    body := Encode(v);
    RoundTripPrefix(v, []);
    assert Encode(v) + [] == Encode(v);
    ErrorNormal(UNSUPPORTED, name);
    assert (id + Zeros(CSTR_SIZE - |id|))[..|id|] == id;
  }

  lemma {:induction false} UnsupportedReply(name: seq<byte>)
    requires |name| < SERVER_NAME_SIZE
    ensures WellFormed(ErrorValue(UNSUPPORTED, name))
    ensures Encode(ErrorValue(UNSUPPORTED, name)) ==
              [0x92, 0xa5, 0x45, 0x52, 0x52, 0x4f, 0x52, 0x82]
              + [0xa5, 0x63, 0x61, 0x75, 0x73, 0x65]
              + [0xb4, 0x75, 0x6e, 0x73, 0x75, 0x70, 0x70, 0x6f, 0x72, 0x74, 0x65, 0x64, 0x20,
                 0x66, 0x75, 0x6e, 0x63, 0x74, 0x69, 0x6f, 0x6e]
              + [0xa6, 0x73, 0x65, 0x72, 0x76, 0x65, 0x72] + ([0xa0 + |name|] + name)
  {
    hide Ascii, Encode, WellFormed, ErrorValue;
    ReplyBytes(UNSUPPORTED, name);
    UnsupportedString();
    assert [0xb4] + UNSUPPORTED == [0xb4, 0x75, 0x6e, 0x73, 0x75, 0x70, 0x70, 0x6f, 0x72, 0x74, 0x65, 0x64, 0x20,
                                    0x66, 0x75, 0x6e, 0x63, 0x74, 0x69, 0x6f, 0x6e];
  }

  /** Parsing does not change an error value. */
  lemma {:induction false} ErrorNormal(cause: seq<byte>, name: seq<byte>)
    ensures Normal(ErrorValue(cause, name)) == ErrorValue(cause, name)
  {
    hide Ascii;
    var m := [Str(Ascii("cause")), Str(cause), Str(Ascii("server")), Str(name)];
    StrsNormal(Str(Ascii("server")), Str(name));
    var t := m[1..];
    assert t[1..] == [Str(Ascii("server")), Str(name)];
    assert NormalAll(t) == [Str(cause)] + NormalAll(t[1..]);
    assert NormalAll(m) == [m[0]] + NormalAll(t) == m;
    StrsNormal(Str(Ascii("ERROR")), Map(m));
  }

  lemma {:induction false} StrsNormal(v: Value, w: Value)
    requires Normal(v) == v && Normal(w) == w
    ensures NormalAll([v, w]) == [v, w]
  {
    hide Normal;
    assert [v, w][1..] == [w] && [w][1..] == [] && NormalAll([]) == [];
    assert NormalAll([w]) == [w];
  }

  /**
   * The sticky error suppresses a reply exactly when the name cannot be copied or there are fewer than three elements.
   */
  lemma {:induction false} SuppressedReply(data: seq<byte>, m: map<RpcHash.Key, nat>, name: seq<byte>, stale: nat)
    requires |name| < SERVER_NAME_SIZE && Accepted(data) && IsCall(Decode(data, 0, 1).vals[0])
    requires var v := Decode(data, 0, 1).vals[0];
             (NameIn(v) in m ==> m[NameIn(v)] == 0) && TopicFor(v.elems[0].kvs, stale).Topic?
    ensures var v := Decode(data, 0, 1).vals[0];
            Dispatched(data, m, name, stale) == [] <==> !HasName(v) || |v.elems| < 3
  {
    hide Decode, Ascii, ErrorValue, Encode, TopicFor;
  }

  /** Over any run there are at most as many events as messages. */
  lemma {:induction false} EventsPerMessage(m: map<RpcHash.Key, nat>, inputs: seq<Input>, name: seq<byte>)
    requires |name| < SERVER_NAME_SIZE
    ensures |Served(m, inputs, name)| <= |inputs|
  {
    hide Dispatched;
    if inputs != [] {
      var front := inputs[..|inputs| - 1];
      EventsPerMessage(m, front, name);
      var last := inputs[|inputs| - 1];
      if last.Message? { AtMostOneEvent(last.data, Registered(m, front), name, last.stale); }
    }
  }

  /** The i-th input of a run adds its own events, decided by the registrations before it. */
  lemma {:induction false} ServedInOrder(m: map<RpcHash.Key, nat>, inputs: seq<Input>, name: seq<byte>, i: nat)
    requires |name| < SERVER_NAME_SIZE && i < |inputs|
    ensures var before := Served(m, inputs[..i], name);
            var own := if inputs[i].Message?
                       then Dispatched(inputs[i].data, Registered(m, inputs[..i]), name, inputs[i].stale) else [];
            before + own <= Served(m, inputs, name)
    decreases |inputs|
  {
    hide Dispatched;
    var front := inputs[..|inputs| - 1];
    if i < |front| {
      ServedInOrder(m, front, name, i);
      assert front[..i] == inputs[..i];
    }
  }

  // ---- from the client's writer to the dispatcher

  /** What a client sends. */
  function RequestValue(id: seq<byte>, func: seq<byte>, args: seq<Value>): Value {
    Array([Map([Str(Ascii("request_id")), Str(id)]), Str(func), Array(args)])
  }

  lemma {:induction false} ThreeValues(a: Value, b: Value, c: Value)
    requires WellFormed(a) && WellFormed(b) && WellFormed(c)
    ensures AllWellFormed([a, b, c]) && NormalAll([a, b, c]) == [Normal(a), Normal(b), Normal(c)]
    ensures NodesAll([a, b, c]) == NodesOfThree(a, b, c)
  {
    hide WellFormed, Normal, Encoding.Nodes;
    var s := [a, b, c];
    var t := s[1..];
    assert t == [b, c] && t[1..] == [c] && t[1..][1..] == [];
    TwoEncoded(b, c);
    assert NormalAll([c]) == [Normal(c)] && NormalAll(t) == [Normal(b)] + NormalAll([c]);
    NodesPair(b, c);
  }

  lemma {:induction false} NodesPair(v: Value, w: Value)
    ensures NodesAll([v, w]) == Encoding.Nodes(v) + Encoding.Nodes(w)
  {
    hide Encoding.Nodes;
    var s := [v, w];
    assert s[1..] == [w] && s[1..][1..] == [] && NodesAll([]) == 0;
    assert NodesAll([w]) == Encoding.Nodes(w);
  }

  function NodesOfThree(a: Value, b: Value, c: Value): nat {
    Encoding.Nodes(a) + Encoding.Nodes(b) + Encoding.Nodes(c)
  }

  /** A request that a client encoded is a request to the server, if its tree fits the node pool. */
  lemma {:induction false} EncodedRequest(id: seq<byte>, func: seq<byte>, args: seq<Value>)
    requires AllWellFormed(args) && |args| < U32 && 6 + NodesAll(args) <= POOL_COUNT
    requires id != [] && Nodes.FitsCstr(id, CSTR_SIZE) && Nodes.FitsCstr(func, CSTR_SIZE)
    ensures WellFormed(RequestValue(id, func, args)) && IsRequest(Encode(RequestValue(id, func, args)), id, func)
  {
    hide Ascii, Encode, Decode;
    var v, kvs := RequestValue(id, func, args), [Str(Ascii("request_id")), Str(id)];
    IdMap(id);
    ThreeValues(Map(kvs), Str(func), Array(args));
    hide NormalAll, NodesAll, AllWellFormed;
    RoundTripPrefix(v, []);
    assert Encode(v) + [] == Encode(v);
    Nodes.LookedUpUnique(kvs, Ascii("request_id"), 0);
    assert Nodes.ValueAt(kvs, 0) == Str(id);
  }

  /** The bytes of a short request. */
  lemma {:induction false} RequestBytes(id: seq<byte>, func: seq<byte>, args: seq<Value>)
    requires |id| <= 31 && |func| <= 31 && |args| <= 15 && AllWellFormed(args)
    ensures WellFormed(RequestValue(id, func, args))
    ensures Encode(RequestValue(id, func, args)) ==
              [0x93, 0x81, 0xaa, 0x72, 0x65, 0x71, 0x75, 0x65, 0x73, 0x74, 0x5f, 0x69, 0x64]
              + ([0xa0 + |id|] + id) + ([0xa0 + |func|] + func) + ([0x90 + |args|] + EncodeAll(args))
  {
    hide Ascii, Encode, EncodeAll, WellFormed, AllWellFormed;
    var key, m := Ascii("request_id"), [Str(Ascii("request_id")), Str(id)];
    IdBytes(id);
    ShortBytes(func, args, []);
    ThreeEncoded(Map(m), Str(func), Array(args));
    ShortBytes([], [Map(m), Str(func), Array(args)], []);
    Joined([0x93], [0x81], [0xaa] + key, [0xa0 + |id|] + id, [0xa0 + |func|] + func,
           [0x90 + |args|] + EncodeAll(args));
    RequestIdString();
    assert [0x93] + [0x81] + ([0xaa] + key) ==
           [0x93, 0x81, 0xaa, 0x72, 0x65, 0x71, 0x75, 0x65, 0x73, 0x74, 0x5f, 0x69, 0x64];
  }

  lemma {:induction false} IdBytes(id: seq<byte>)
    requires |id| <= 31
    ensures var v := Map([Str(Ascii("request_id")), Str(id)]);
            WellFormed(v) && Encode(v) == [0x81] + (([0xaa] + Ascii("request_id")) + ([0xa0 + |id|] + id))
  {
    hide Ascii, Encode, EncodeAll, WellFormed, AllWellFormed;
    var m := [Str(Ascii("request_id")), Str(id)];
    ShortBytes(Ascii("request_id"), [], []);
    ShortBytes(id, [], []);
    TwoEncoded(m[0], m[1]);
    ShortBytes([], [], m);
  }

  lemma {:induction false} Joined(a: seq<byte>, b: seq<byte>, c: seq<byte>, d: seq<byte>, e: seq<byte>, f: seq<byte>)
    ensures a + (b + (c + d) + e + f) == (a + b + c) + d + e + f
  {
  }

  lemma {:induction false} ThreeEncoded(a: Value, b: Value, c: Value)
    requires WellFormed(a) && WellFormed(b) && WellFormed(c)
    ensures AllWellFormed([a, b, c]) && EncodeAll([a, b, c]) == Encode(a) + Encode(b) + Encode(c)
  {
    hide Encode, WellFormed;
    TwoEncoded(b, c);
    assert [a, b, c][1..] == [b, c];
  }

  lemma {:induction false} IdMap(id: seq<byte>)
    requires |id| < U32
    ensures var m := Map([Str(Ascii("request_id")), Str(id)]);
            WellFormed(m) && Normal(m) == m && Encoding.Nodes(m) == 3
  {
    hide Ascii;
    TwoEncoded(Str(Ascii("request_id")), Str(id));
    StrsNormal(Str(Ascii("request_id")), Str(id));
    NodesPair(Str(Ascii("request_id")), Str(id));
  }
}
