/**
 * The UI bridge: messages to the UI wait in an outbox until the UI says
 * `UI_READY`, and a large JSON export is sent as a run of slices between
 * an `EXPORT_BEGIN` and an `EXPORT_END` message.
 *
 * `figma.ui.postMessage` is the append to `posted`; the handler given to
 * `onMessage` is the append to `handled`.
 */
module Bridge {

  /** The messages between the plugin and its UI. */
  datatype Message =
    | UiReady
    | Resize(width: int, height: int)
    | Close
    | ExportBegin(chunks: nat)
    | ExportChunk(index: nat, data: string)
    | ExportEnd
    | Error(message: string)
    | Other(kind: string)

  function Min(a: int, b: int): int {
    if a <= b then a else b
  }

  lemma MulLe(a: nat, b: nat, m: nat)
    requires a <= b
    ensures a * m <= b * m
  {
    var d := b - a;
    assert b * m == a * m + d * m;
  }

  /**
   * `Math.ceil(length / chunkSize)`: enough chunks to cover the text, and
   * not one more.
   */
  function ChunkCount(n: nat, size: nat): (c: nat)
    requires size > 0
    ensures c * size >= n
    ensures c > 0 ==> (c - 1) * size < n
    ensures c == 0 <==> n == 0
  {
    var q := (n + size - 1) / size;
    assert q * size + (n + size - 1) % size == n + size - 1;
    assert (q - 1) * size == q * size - size;
    q
  }

  /** A chunk starts inside the text. */
  lemma ChunkStart(n: nat, size: nat, i: nat)
    requires size > 0 && i < ChunkCount(n, size)
    ensures i * size < n
  {
    var c := ChunkCount(n, size);
    MulLe(i, c - 1, size);
  }

  /** `json.slice(i * chunkSize, (i + 1) * chunkSize)`; the end is cut at the length. */
  function Chunk(json: string, size: nat, i: nat): (s: string)
    requires size > 0 && i < ChunkCount(|json|, size)
    ensures 1 <= |s| <= size
  {
    ChunkStart(|json|, size, i);
    json[i * size..Min((i + 1) * size, |json|)]
  }

  /** The `EXPORT_CHUNK` messages of an export, indexed from 0. */
  function ChunkMessages(json: string, size: nat): (r: seq<Message>)
    requires size > 0
    ensures |r| == ChunkCount(|json|, size)
    ensures forall i :: 0 <= i < |r| ==> r[i] == ExportChunk(i, Chunk(json, size, i))
  {
    var c := ChunkCount(|json|, size);
    seq(c, i requires 0 <= i < c => ExportChunk(i, Chunk(json, size, i)))
  }

  /** Everything `postJsonInChunks` sends, in order. */
  function ExportMessages(json: string, size: nat): seq<Message>
    requires size > 0
  {
    [ExportBegin(ChunkCount(|json|, size))] + ChunkMessages(json, size) + [ExportEnd]
  }

  /** An export up to chunk `i`: the begin message, then the chunk messages up to and including `i`. */
  lemma ExportMessagesStep(json: string, size: nat, i: nat)
    requires size > 0 && i < ChunkCount(|json|, size)
    ensures ExportMessages(json, size)[..i + 2] == ExportMessages(json, size)[..i + 1] + [ExportChunk(i, Chunk(json, size, i))]
  {
    var ms := ExportMessages(json, size);
    assert ms[i + 1] == ChunkMessages(json, size)[i];
    assert ms[..i + 2] == ms[..i + 1] + [ms[i + 1]];
  }

  /** An export opens with its begin message and closes with its end message. */
  lemma ExportMessagesEnds(json: string, size: nat)
    requires size > 0
    ensures var ms, c := ExportMessages(json, size), ChunkCount(|json|, size);
      ms[..1] == [ExportBegin(c)] && ms == ms[..c + 1] + [ExportEnd]
  {
  }

  lemma AppendAssoc<T>(a: seq<T>, b: seq<T>, c: seq<T>)
    ensures (a + b) + c == a + (b + c)
  {
  }

  /** The data of the chunk messages, one after the other. */
  function Payload(ms: seq<Message>): string
    decreases |ms|
  {
    if ms == [] then ""
    else
      var last := ms[|ms| - 1];
      Payload(ms[..|ms| - 1]) + if last.ExportChunk? then last.data else ""
  }

  /** One more message adds its data, if it is a chunk. */
  lemma PayloadSnoc(ms: seq<Message>, k: nat)
    requires 0 < k <= |ms|
    ensures Payload(ms[..k]) == Payload(ms[..k - 1]) + if ms[k - 1].ExportChunk? then ms[k - 1].data else ""
  {
    assert ms[..k][..k - 1] == ms[..k - 1];
  }

  /** Chunk `i` runs from `i` chunk lengths to `i + 1` of them, or to the end. */
  lemma ChunkSpan(json: string, size: nat, i: nat, a: nat)
    requires size > 0 && i < ChunkCount(|json|, size) && a == i * size
    ensures a < |json| && Chunk(json, size, i) == json[a..Min(a + size, |json|)]
  {
    ChunkStart(|json|, size, i);
    assert (i + 1) * size == a + size;
  }

  lemma MulSucc(k: nat, size: nat)
    ensures k * size + size == (k + 1) * size
  {
  }

  /** The first `k` chunks are the text up to `k` chunk lengths. */
  lemma {:induction false} PayloadPrefix(json: string, size: nat, k: nat)
    requires size > 0 && k <= ChunkCount(|json|, size)
    ensures Payload(ChunkMessages(json, size)[..k]) == json[..Min(k * size, |json|)]
  {
    if k > 0 {
      PayloadPrefix(json, size, k - 1);
      PayloadPrefixStep(json, size, k);
    }
  }

  /** Chunk `k - 1` carries the text on from `k - 1` chunk lengths to `k` of them. */
  lemma PayloadPrefixStep(json: string, size: nat, k: nat)
    requires size > 0 && 0 < k <= ChunkCount(|json|, size)
    requires Payload(ChunkMessages(json, size)[..k - 1]) == json[..Min((k - 1) * size, |json|)]
    ensures Payload(ChunkMessages(json, size)[..k]) == json[..Min(k * size, |json|)]
  {
    var ms := ChunkMessages(json, size);
    var a := (k - 1) * size;
    PayloadSnoc(ms, k);
    ChunkSpan(json, size, k - 1, a);
    MulSucc(k - 1, size);
    var b := Min(k * size, |json|);
    assert ms[k - 1].data == json[a..b];
    assert json[..a] + json[a..b] == json[..b];
  }

  /**
   * An export's chunks, read in index order, give back the text: the
   * receiving side can rebuild the JSON by concatenation.
   */
  lemma PayloadRoundTrip(json: string, size: nat)
    requires size > 0
    ensures Payload(ChunkMessages(json, size)) == json
  {
    var ms := ChunkMessages(json, size);
    PayloadPrefix(json, size, |ms|);
    assert ms[..|ms|] == ms;
    assert json[..|json|] == json;
  }

  /**
   * The shape of an export: a begin message announcing as many chunks as
   * follow, chunks indexed 0, 1, … each holding 1 to `size` characters,
   * and an end message. An empty text has no chunks.
   */
  lemma ExportShape(json: string, size: nat)
    requires size > 0
    ensures var ms, c := ExportMessages(json, size), ChunkCount(|json|, size);
      |ms| == c + 2 && ms[0] == ExportBegin(c) && ms[c + 1] == ExportEnd &&
      (forall i :: 1 <= i <= c ==> ms[i].ExportChunk? && ms[i].index == i - 1 && 1 <= |ms[i].data| <= size) &&
      (json == "" <==> c == 0)
  {
  }

  /** The module-level `uiReady` flag and `outbox` queue of the bridge. */
  class UiBridge {
    var uiReady: bool
    var outbox: seq<Message>
    /** What has been posted to the UI, in order. */
    var posted: seq<Message>
    /** The messages passed on to the handler, in order. */
    var handled: seq<Message>
    /** Every message given to `send`, in order. */
    ghost var sent: seq<Message>

    /**
     * What was sent is what was posted followed by what waits in the
     * outbox, and nothing waits once the UI is ready.
     */
    ghost predicate Valid()
      reads this
    {
      posted + outbox == sent && (uiReady ==> outbox == [])
    }

    constructor ()
      ensures Valid()
      ensures !uiReady && outbox == [] && posted == [] && handled == [] && sent == []
    {
      uiReady := false;
      outbox := [];
      posted := [];
      handled := [];
      sent := [];
    }

    /** `send(msg)`: posted at once when the UI is ready, queued otherwise. */
    method Send(msg: Message)
      requires Valid()
      modifies this
      ensures Valid()
      ensures sent == old(sent) + [msg]
      ensures uiReady == old(uiReady) && handled == old(handled)
      ensures uiReady ==> posted == old(posted) + [msg] && outbox == old(outbox)
      ensures !uiReady ==> posted == old(posted) && outbox == old(outbox) + [msg]
    {
      sent := sent + [msg];
      if uiReady {
        posted := posted + [msg];
      } else {
        outbox := outbox + [msg];
      }
    }

    /**
     * The listener `onMessage` installs: `UI_READY` sets the flag and posts
     * the outbox in order, then empties it, without calling the handler;
     * any other message goes to the handler.
     */
    method Receive(msg: Message)
      requires Valid()
      modifies this
      ensures Valid()
      ensures sent == old(sent)
      ensures msg.UiReady? ==>
        uiReady && outbox == [] && posted == old(posted) + old(outbox) && handled == old(handled)
      ensures !msg.UiReady? ==>
        uiReady == old(uiReady) && outbox == old(outbox) && posted == old(posted) && handled == old(handled) + [msg]
    {
      if msg.UiReady? {
        uiReady := true;
        var i := 0;
        while i < |outbox|
          invariant 0 <= i <= |outbox|
          invariant uiReady && outbox == old(outbox) && sent == old(sent) && handled == old(handled)
          invariant posted == old(posted) + outbox[..i]
        {
          assert outbox[..i + 1] == outbox[..i] + [outbox[i]];
          posted := posted + [outbox[i]];
          i := i + 1;
        }
        assert outbox[..i] == outbox;
        outbox := [];
        return;
      }
      handled := handled + [msg];
    }

    /**
     * `postJsonInChunks(json, chunkSize)`: the begin message, the chunks and
     * the end message, each through `send`.
     */
    method PostJsonInChunks(json: string, chunkSize: nat)
      requires Valid() && chunkSize > 0
      modifies this
      ensures Valid()
      ensures sent == old(sent) + ExportMessages(json, chunkSize)
      ensures uiReady == old(uiReady) && handled == old(handled)
      ensures uiReady ==> posted == old(posted) + ExportMessages(json, chunkSize)
      ensures !uiReady ==> posted == old(posted) && outbox == old(outbox) + ExportMessages(json, chunkSize)
    {
      var chunks := ChunkCount(|json|, chunkSize);
      ghost var ms := ExportMessages(json, chunkSize);
      ghost var s0, p0, o0 := sent, posted, outbox;
      ExportMessagesEnds(json, chunkSize);
      Send(ExportBegin(chunks));
      for i := 0 to chunks
        invariant Valid() && uiReady == old(uiReady) && handled == old(handled)
        invariant sent == s0 + ms[..i + 1]
        invariant uiReady ==> posted == p0 + ms[..i + 1]
        invariant !uiReady ==> posted == p0 && outbox == o0 + ms[..i + 1]
      {
        var msg := ExportChunk(i, Chunk(json, chunkSize, i));
        ExportMessagesStep(json, chunkSize, i);
        Send(msg);
        AppendAssoc(s0, ms[..i + 1], [msg]);
        AppendAssoc(p0, ms[..i + 1], [msg]);
        AppendAssoc(o0, ms[..i + 1], [msg]);
      }
      Send(ExportEnd);
      AppendAssoc(s0, ms[..chunks + 1], [ExportEnd]);
      AppendAssoc(p0, ms[..chunks + 1], [ExportEnd]);
      AppendAssoc(o0, ms[..chunks + 1], [ExportEnd]);
    }
  }
}
