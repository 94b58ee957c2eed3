/**
 * The message handling of the plugin entry file: its own `send` and
 * outbox, the `onmessage` listener (UI_READY, RESIZE, CLOSE), the window
 * size restored at start-up, and `postJsonInChunks`, which posts straight
 * to the UI without going through `send`.
 *
 * `figma.ui.resize` sets `size`, `clientStorage` under "uiSize" is
 * `stored`, `figma.closePlugin` sets `closed`. Widths and heights arrive
 * as integers, so `Math.round` leaves them as they are.
 */
module Shell {
  import opened Options
  import opened Bridge

  const DefaultWidth: int := 400
  const DefaultHeight: int := 560
  const MinWidth: int := 280
  const MaxWidth: int := 1200
  const MinHeight: int := 160
  const MaxHeight: int := 1000
  /** `CHUNK_SIZE`: 1 MB of characters. */
  const ChunkSize: nat := 1048576

  /** What `clientStorage.setAsync('uiSize', {w, h})` keeps; either field may be missing. */
  datatype Saved = Saved(w: Option<int>, h: Option<int>)

  /** `Math.max(lo, Math.min(hi, x))`. */
  function Clamp(lo: int, hi: int, x: int): (r: int)
    requires lo <= hi
    ensures lo <= r <= hi
    ensures lo <= x <= hi ==> r == x
    ensures x < lo ==> r == lo
    ensures x > hi ==> r == hi
  {
    Max(lo, Min(hi, x))
  }

  function Max(a: int, b: int): int {
    if a >= b then a else b
  }

  /** The size RESIZE sets: the requested one, brought into the allowed ranges. */
  function ClampSize(w: int, h: int): (int, int) {
    (Clamp(MinWidth, MaxWidth, w), Clamp(MinHeight, MaxHeight, h))
  }

  /** The size applied once the saved one is read: `saved?.w ?? DEFAULT_W`, and so for the height. */
  function RestoredSize(saved: Option<Saved>): (r: (int, int))
    ensures saved.None? ==> r == (DefaultWidth, DefaultHeight)
  {
    var w := if saved.Some? && saved.value.w.Some? then saved.value.w.value else DefaultWidth;
    var h := if saved.Some? && saved.value.h.Some? then saved.value.h.value else DefaultHeight;
    (w, h)
  }

  /**
   * A size saved by RESIZE is restored as it was saved, so it lies in the
   * allowed ranges, and clamping it again changes nothing.
   */
  lemma ResizeRestores(w: int, h: int)
    ensures var s := ClampSize(w, h);
      RestoredSize(Some(Saved(Some(s.0), Some(s.1)))) == s &&
      MinWidth <= s.0 <= MaxWidth && MinHeight <= s.1 <= MaxHeight &&
      ClampSize(s.0, s.1) == s
  {
  }

  /** The plugin's window and its messages. */
  class PluginShell {
    var uiReady: bool
    var outbox: seq<Message>
    /** What has been posted to the UI, in order. */
    var posted: seq<Message>
    var size: (int, int)
    var stored: Option<Saved>
    var closed: bool

    ghost predicate Valid()
      reads this
    {
      uiReady ==> outbox == []
    }

    /** `showUI` at the default size, with whatever size was saved by an earlier run. */
    constructor (saved: Option<Saved>)
      ensures Valid()
      ensures !uiReady && outbox == [] && posted == [] && !closed
      ensures size == (DefaultWidth, DefaultHeight) && stored == saved
    {
      uiReady := false;
      outbox := [];
      posted := [];
      size := (DefaultWidth, DefaultHeight);
      stored := saved;
      closed := false;
    }

    /** The `getAsync('uiSize')` callback: the saved size, or the default for a missing field. */
    method RestoreSize()
      modifies this
      ensures size == RestoredSize(old(stored))
      ensures uiReady == old(uiReady) && outbox == old(outbox) && posted == old(posted)
      ensures stored == old(stored) && closed == old(closed)
    {
      var w := if stored.Some? && stored.value.w.Some? then stored.value.w.value else DefaultWidth;
      var h := if stored.Some? && stored.value.h.Some? then stored.value.h.value else DefaultHeight;
      size := (w, h);
    }

    /** `send(msg)`: posted at once when the UI is ready, queued otherwise. */
    method Send(msg: Message)
      requires Valid()
      modifies this
      ensures Valid()
      ensures uiReady == old(uiReady) && size == old(size) && stored == old(stored) && closed == old(closed)
      ensures uiReady ==> posted == old(posted) + [msg] && outbox == old(outbox)
      ensures !uiReady ==> posted == old(posted) && outbox == old(outbox) + [msg]
    {
      if uiReady {
        posted := posted + [msg];
      } else {
        outbox := outbox + [msg];
      }
    }

    /**
     * `figma.ui.onmessage`: UI_READY flushes the outbox in order; RESIZE
     * clamps the size, applies it and saves it; CLOSE closes the plugin;
     * anything else is ignored.
     */
    method OnMessage(msg: Message)
      requires Valid()
      modifies this
      ensures Valid()
      ensures msg.UiReady? ==> uiReady && outbox == [] && posted == old(posted) + old(outbox)
      ensures !msg.UiReady? ==> uiReady == old(uiReady) && outbox == old(outbox) && posted == old(posted)
      ensures msg.Resize? ==>
        size == ClampSize(msg.width, msg.height) && stored == Some(Saved(Some(size.0), Some(size.1)))
      ensures !msg.Resize? ==> size == old(size) && stored == old(stored)
      ensures closed == (old(closed) || msg.Close?)
    {
      match msg {
        case UiReady =>
          uiReady := true;
          var i := 0;
          while i < |outbox|
            invariant 0 <= i <= |outbox|
            invariant uiReady && outbox == old(outbox) && size == old(size) && stored == old(stored) && closed == old(closed)
            invariant posted == old(posted) + outbox[..i]
          {
            assert outbox[..i + 1] == outbox[..i] + [outbox[i]];
            posted := posted + [outbox[i]];
            i := i + 1;
          }
          assert outbox[..i] == outbox;
          outbox := [];
        case Resize(width, height) =>
          var w := Max(MinWidth, Min(MaxWidth, width));
          var h := Max(MinHeight, Min(MaxHeight, height));
          size := (w, h);
          stored := Some(Saved(Some(w), Some(h)));
        case Close =>
          closed := true;
        case _ =>
      }
    }

    /**
     * `postJsonInChunks(json)`: the begin message, the chunks of `CHUNK_SIZE`
     * and the end message, posted directly even before the UI is ready; the
     * outbox is not used.
     */
    method PostJsonInChunks(json: string)
      modifies this
      ensures posted == old(posted) + ExportMessages(json, ChunkSize)
      ensures uiReady == old(uiReady) && outbox == old(outbox)
      ensures size == old(size) && stored == old(stored) && closed == old(closed)
    {
      var total := |json|;
      var chunks := ChunkCount(total, ChunkSize);
      ghost var ms := ExportMessages(json, ChunkSize);
      ghost var p0 := posted;
      ExportMessagesEnds(json, ChunkSize);
      posted := posted + [ExportBegin(chunks)];
      for i := 0 to chunks
        invariant posted == p0 + ms[..i + 1]
        invariant uiReady == old(uiReady) && outbox == old(outbox)
        invariant size == old(size) && stored == old(stored) && closed == old(closed)
      {
        var start := i * ChunkSize;
        var end := Min(start + ChunkSize, total);
        ChunkSpan(json, ChunkSize, i, start);
        ExportMessagesStep(json, ChunkSize, i);
        AppendAssoc(p0, ms[..i + 1], [ExportChunk(i, json[start..end])]);
        posted := posted + [ExportChunk(i, json[start..end])];
      }
      AppendAssoc(p0, ms[..chunks + 1], [ExportEnd]);
      posted := posted + [ExportEnd];
    }
  }
}
