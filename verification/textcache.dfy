/** The text cache: a 256-slot open-addressed table from (text hash, wrap
    width, font size) to a rendered texture, probed linearly from
    `hash % 256` for at most 20 slots.

    Two different staleness rules apply: a lookup releases a used slot that
    nobody touched for more than 100 frames, while population treats any
    slot untouched since before the previous frame as free.  A texture is
    only its `(width, height)` pair here; loading, unloading and drawing
    into it are outside the model. */
module TextCache {
  import opened Wrappers
  import opened Geometry
  import Pen

  const CACHE_SIZE: nat := 256
  const GIVE_UP: nat := 20
  const HASH_MODULUS: nat := 0x1_0000_0000_0000_0000
  /** A lookup releases a used slot older than this many frames. */
  const LOOKUP_MAX_AGE: int := 100
  /** Population treats a slot older than this many frames as free. */
  const POPULATE_MAX_AGE: int := 1

  type Byte = b: int | 0 <= b < 256
  type U64 = h: int | 0 <= h < 0x1_0000_0000_0000_0000

  // ---------------------------------------------------------------------
  // Hashing

  /** The text read as an unbounded base-256 numeral, first byte most
      significant. */
  function Base256(s: seq<Byte>): nat {
    if |s| == 0 then 0 else Base256(s[..|s| - 1]) * 256 + s[|s| - 1]
  }

  /** The value `hash_str` computes: the numeral modulo 2^64. */
  function TextHash(s: seq<Byte>): U64 {
    Base256(s) % HASH_MODULUS
  }

  lemma ModMultipleVanishes(k: nat, x: nat)
    ensures (k * HASH_MODULUS + x) % HASH_MODULUS == x % HASH_MODULUS
  {
    var q := x / HASH_MODULUS;
    var r := x % HASH_MODULUS;
    assert x == q * HASH_MODULUS + r;
    assert k * HASH_MODULUS + x == (k + q) * HASH_MODULUS + r;
  }

  lemma ModStep(b: nat, c: Byte)
    ensures ((b % HASH_MODULUS) * 256 + c) % HASH_MODULUS == (b * 256 + c) % HASH_MODULUS
  {
    var q := b / HASH_MODULUS;
    var r := b % HASH_MODULUS;
    assert b == q * HASH_MODULUS + r;
    assert b * 256 + c == (q * 256) * HASH_MODULUS + (r * 256 + c);
    ModMultipleVanishes(q * 256, r * 256 + c);
  }

  /** `hash_str`: folds `h := h * 256 + byte` over the text from left to
      right in 64-bit unsigned arithmetic, which wraps modulo 2^64. */
  method HashStr(text: seq<Byte>) returns (h: U64)
    ensures h == TextHash(text)
    ensures text == [] ==> h == 0
  {
    h := 0;
    var i := 0;
    while i < |text|
      invariant 0 <= i <= |text|
      invariant h == TextHash(text[..i])
    {
      assert text[..i + 1][..i] == text[..i];
      ModStep(Base256(text[..i]), text[i]);
      h := (h * 256 + text[i]) % HASH_MODULUS;
      i := i + 1;
    }
    assert text[..|text|] == text;
  }

  /** Because 256 divides 2^64, the first probed slot is the text's last
      byte: every text ending in the same byte starts probing at the same
      slot. */
  lemma {:induction false} StartSlotIsLastByte(s: seq<Byte>)
    ensures TextHash(s) % CACHE_SIZE == if |s| == 0 then 0 else s[|s| - 1]
  {
    var b := Base256(s);
    var h := TextHash(s);
    var q := b / HASH_MODULUS;
    assert b == q * HASH_MODULUS + h;
    assert q * HASH_MODULUS == (q * 0x100_0000_0000_0000) * 256;
    SlotMultipleVanishes(q * 0x100_0000_0000_0000, h);
    if |s| > 0 {
      var p := Base256(s[..|s| - 1]);
      assert b == p * 256 + s[|s| - 1];
      SlotMultipleVanishes(p, s[|s| - 1]);
    }
  }

  lemma SlotMultipleVanishes(k: nat, x: nat)
    ensures (k * 256 + x) % 256 == x % 256
  {
    var q := x / 256;
    var r := x % 256;
    assert x == q * 256 + r;
    assert k * 256 + x == (k + q) * 256 + r;
  }

  // ---------------------------------------------------------------------
  // Table

  datatype Texture = Texture(width: int, height: int)

  const NO_TEXTURE: Texture := Texture(0, 0)

  datatype Key = Key(hash: U64, width: Pixels, fontSize: Pixels)

  datatype Slot = Slot(used: bool, height: Pixels, actualWidth: Pixels, lastFrame: int, texture: Texture, key: Key)

  const EMPTY_SLOT: Slot := Slot(false, 0.0, 0.0, 0, NO_TEXTURE, Key(0, 0.0, 0.0))

  type Table = t: seq<Slot> | |t| == 256 witness seq(256, _ => EMPTY_SLOT)

  /** `hash_key`: the slot hash is the text hash alone. */
  function HashKey(key: Key): U64 {
    key.hash
  }

  /** Width and font size do not influence where a key is probed, so a
      slightly resized text lands on the slot of its previous rendering. */
  lemma HashKeyIgnoresGeometry(hash: U64, w1: Pixels, f1: Pixels, w2: Pixels, f2: Pixels)
    ensures HashKey(Key(hash, w1, f1)) == HashKey(Key(hash, w2, f2)) == hash
  {
  }

  /** The slot visited by the `j`-th probe from `start`. */
  function ProbeSlot(start: nat, j: nat): (i: nat)
    ensures i < CACHE_SIZE
  {
    (start + j) % CACHE_SIZE
  }

  /** How many probes from `start` it takes to reach slot `i`. */
  function ProbeOffset(start: nat, i: nat): (j: nat)
    ensures j < CACHE_SIZE
  {
    (i - start) % CACHE_SIZE
  }

  lemma ProbeBijection(start: nat)
    requires start < CACHE_SIZE
    ensures forall j :: 0 <= j < CACHE_SIZE ==> ProbeOffset(start, ProbeSlot(start, j)) == j
    ensures forall i :: 0 <= i < CACHE_SIZE ==> ProbeSlot(start, ProbeOffset(start, i)) == i
  {
  }

  lemma ProbeRoundTrip(start: nat, j: nat)
    requires start < CACHE_SIZE && j < CACHE_SIZE
    ensures ProbeOffset(start, ProbeSlot(start, j)) == j
  {
  }

  /** The slot population falls back to when the whole window is busy is
      the 21st slot from the start: a lookup, which probes only 20 slots,
      never sees it. */
  lemma GiveUpSlotOutsideWindow(start: nat, j: nat)
    requires start < CACHE_SIZE && j < GIVE_UP
    ensures ProbeSlot(start, j) != ProbeSlot(start, GIVE_UP)
  {
    ProbeBijection(start);
  }

  predicate Matches(s: Slot, key: Key) {
    s.used && s.key == key
  }

  predicate Stale(s: Slot, frame: int) {
    s.used && s.lastFrame < frame - LOOKUP_MAX_AGE
  }

  /** What a lookup probe does to a slot before comparing keys. */
  function Release(s: Slot, frame: int): Slot {
    if Stale(s, frame) then s.(used := false, texture := NO_TEXTURE) else s
  }

  predicate Reusable(s: Slot, frame: int) {
    !s.used || s.lastFrame < frame - POPULATE_MAX_AGE
  }

  // ---------------------------------------------------------------------
  // Lookup (the probe loop of `text_render_cached`)

  /** `hit` is the probe offset of the matching slot, if any. */
  datatype Lookup = Lookup(table: Table, hit: Option<nat>)

  /** Number of probes a lookup performed. */
  function Probed(hit: Option<nat>): nat {
    if hit.Some? then hit.value + 1 else GIVE_UP
  }

  /** Probes `k`, `k+1`, ... up to `GIVE_UP - 1` from `start`. */
  function LookupFrom(t: Table, key: Key, start: nat, k: nat, frame: int): (r: Lookup)
    requires start < CACHE_SIZE && k <= GIVE_UP
    decreases GIVE_UP - k
    ensures r.hit.Some? ==> k <= r.hit.value < GIVE_UP && Matches(r.table[ProbeSlot(start, r.hit.value)], key)
    ensures forall j :: k <= j < Probed(r.hit) - (if r.hit.Some? then 1 else 0) ==> !Matches(r.table[ProbeSlot(start, j)], key)
    ensures forall i :: 0 <= i < CACHE_SIZE ==>
              r.table[i] == if k <= ProbeOffset(start, i) < Probed(r.hit) then Release(t[i], frame) else t[i]
  {
    ProbeBijection(start);
    if k == GIVE_UP then
      Lookup(t, None)
    else
      var i := ProbeSlot(start, k);
      var t1: Table := t[i := Release(t[i], frame)];
      if Matches(t1[i], key) then
        Lookup(t1, Some(k))
      else
        LookupFrom(t1, key, start, k + 1, frame)
  }

  /** A lookup changes nothing but the `used` flag and texture of stale
      probed slots, and only ever clears `used`. */
  lemma LookupOnlyReleases(t: Table, key: Key, start: nat, frame: int, i: nat)
    requires start < CACHE_SIZE && i < CACHE_SIZE
    ensures var r := LookupFrom(t, key, start, 0, frame);
            (r.table[i] == t[i] || (Stale(t[i], frame) && r.table[i] == t[i].(used := false, texture := NO_TEXTURE)))
            && (r.table[i].used ==> t[i].used)
  {
  }

  // ---------------------------------------------------------------------
  // Slot choice (the probe loop of `populate_cache`)

  /** `offset` is the probe offset of the chosen slot; `GIVE_UP` means no
      probed slot was free and the next one is overwritten. */
  datatype Choice = Choice(table: Table, offset: nat)

  function ChooseFrom(t: Table, start: nat, k: nat, frame: int): (r: Choice)
    requires start < CACHE_SIZE && k <= GIVE_UP
    decreases GIVE_UP - k
    ensures k <= r.offset <= GIVE_UP
    ensures forall j :: k <= j < r.offset ==> !Reusable(t[ProbeSlot(start, j)], frame)
    ensures r.offset < GIVE_UP ==> Reusable(t[ProbeSlot(start, r.offset)], frame)
    ensures r.table == if r.offset < GIVE_UP
                       then t[ProbeSlot(start, r.offset) := t[ProbeSlot(start, r.offset)].(used := false)]
                       else t
  {
    if k == GIVE_UP then
      Choice(t, GIVE_UP)
    else
      var i := ProbeSlot(start, k);
      var t1: Table := if t[i].lastFrame < frame - POPULATE_MAX_AGE then t[i := t[i].(used := false)] else t;
      if !t1[i].used then
        Choice(t[i := t[i].(used := false)], k)
      else
        ChooseFrom(t1, start, k + 1, frame)
  }

  // ---------------------------------------------------------------------
  // Population

  /** C's float-to-int conversion, which truncates toward zero. */
  function Trunc(v: real): (n: int)
    ensures v >= 0.0 ==> n as real <= v < n as real + 1.0
    ensures v < 0.0 ==> n as real - 1.0 < v <= n as real
  {
    if v >= 0.0 then v.Floor else -((-v).Floor)
  }

  /** Height needed for `len` square glyphs of `fontSize` in `width`, plus
      one spare line.  The f32 quotient by a zero width is not a number; the
      model takes it as 0. */
  function TentativeHeight(len: nat, fontSize: Pixels, width: Pixels): Pixels {
    (if width == 0.0 then 0.0 else (len as real) * fontSize * fontSize / width) + fontSize
  }

  /** The size-tolerance window: strictly larger than needed, strictly
      smaller than twice that, in both dimensions. */
  predicate FitsTexture(tex: Texture, width: Pixels, height: Pixels) {
    && width < tex.width as real < 2.0 * width
    && height < tex.height as real < 2.0 * height
  }

  /** The texture a slot keeps: its own if it is inside the tolerance
      window, otherwise a new one at 1.5 times the needed size. */
  function TextureFor(current: Texture, width: Pixels, height: Pixels): Texture {
    if FitsTexture(current, width, height) then current else Texture(Trunc(1.5 * width), Trunc(1.5 * height))
  }

  /** A texture allocated for a size of at least 2x2 is inside the window
      for that same size, so re-rendering at unchanged geometry never
      reallocates. */
  lemma ReallocatedTextureIsReused(current: Texture, width: Pixels, height: Pixels)
    requires width >= 2.0 && height >= 2.0
    ensures FitsTexture(TextureFor(current, width, height), width, height)
    ensures TextureFor(TextureFor(current, width, height), width, height) == TextureFor(current, width, height)
  {
    var w := Trunc(1.5 * width);
    var h := Trunc(1.5 * height);
    assert w as real > 1.5 * width - 1.0;
    assert h as real > 1.5 * height - 1.0;
  }

  /** Where the pen ends after rendering `advances` at `fontSize` into
      `width`: lines are `fontSize` apart and glyphs are spaced by a tenth
      of it. */
  function RenderPen(advances: seq<Pixels>, width: Pixels, fontSize: Pixels): Pen.PenPos {
    Pen.Walk(advances, 0.0, width, fontSize, fontSize * 0.1, Pen.PenPos(0.0, 0.0, 0))
  }

  /** `populate_cache`: `offset` is the probe offset of the filled slot. */
  datatype Populated = Populated(table: Table, offset: nat)

  function Populate(t: Table, text: seq<Byte>, advances: seq<Pixels>, textHash: U64, width: Pixels, fontSize: Pixels, frame: int, keyHash: U64): (r: Populated)
    ensures r.offset <= GIVE_UP
    ensures forall j :: 0 <= j < r.offset ==> !Reusable(t[ProbeSlot(keyHash % CACHE_SIZE, j)], frame)
    ensures r.offset < GIVE_UP ==> Reusable(t[ProbeSlot(keyHash % CACHE_SIZE, r.offset)], frame)
    ensures var slot := ProbeSlot(keyHash % CACHE_SIZE, r.offset);
            var pen := RenderPen(advances, width, fontSize);
            && (forall i :: 0 <= i < CACHE_SIZE && i != slot ==> r.table[i] == t[i])
            && r.table[slot].used
            && r.table[slot].key == Key(textHash, width, fontSize)
            && r.table[slot].lastFrame == frame
            && r.table[slot].height == pen.y + fontSize
            && r.table[slot].actualWidth == (if pen.y == 0.0 then pen.x else width)
            && var tentative := TentativeHeight(|text|, fontSize, width);
               if FitsTexture(t[slot].texture, width, tentative)
               then r.table[slot].texture == t[slot].texture
               else r.table[slot].texture == Texture(Trunc(1.5 * width), Trunc(1.5 * tentative))
  {
    var start := keyHash % CACHE_SIZE;
    var choice := ChooseFrom(t, start, 0, frame);
    var slot := ProbeSlot(start, choice.offset);
    assert choice.table[slot].texture == t[slot].texture;
    var filled := Filled(choice.table[slot].texture, text, advances, textHash, width, fontSize, frame);
    Populated(choice.table[slot := filled], choice.offset)
  }

  /** The slot `populate_cache` records: measured by the pen, keyed by the
      request, stamped with the frame, and keeping `texture` when it is in
      the tolerance window. */
  function Filled(texture: Texture, text: seq<Byte>, advances: seq<Pixels>, textHash: U64, width: Pixels, fontSize: Pixels, frame: int): (s: Slot)
    ensures var pen := RenderPen(advances, width, fontSize);
            && s.used
            && s.key == Key(textHash, width, fontSize)
            && s.lastFrame == frame
            && s.height == pen.y + fontSize
            && s.actualWidth == (if pen.y == 0.0 then pen.x else width)
            && var tentative := TentativeHeight(|text|, fontSize, width);
               if FitsTexture(texture, width, tentative)
               then s.texture == texture
               else s.texture == Texture(Trunc(1.5 * width), Trunc(1.5 * tentative))
  {
    var pen := RenderPen(advances, width, fontSize);
    var kept := TextureFor(texture, width, TentativeHeight(|text|, fontSize, width));
    Slot(true, pen.y + fontSize, if pen.y == 0.0 then pen.x else width, frame, kept, Key(textHash, width, fontSize))
  }

  // ---------------------------------------------------------------------
  // text_render_cached

  /** The rendered value, the updated table, the probe offset of the slot
      that served the request and whether it was a hit. */
  datatype Rendered = Rendered(value: Slot, table: Table, offset: nat, hit: bool)

  function RequestKey(text: seq<Byte>, width: Pixels, fontSize: Pixels): Key {
    Key(TextHash(text), width, fontSize)
  }

  function StartSlot(text: seq<Byte>): nat {
    HashKey(RequestKey(text, 0.0, 0.0)) % CACHE_SIZE
  }

  /** The slot that served a request. */
  function ServedSlot(text: seq<Byte>, r: Rendered): nat {
    ProbeSlot(StartSlot(text), r.offset)
  }

  function Render(t: Table, text: seq<Byte>, advances: seq<Pixels>, width: Pixels, fontSize: Pixels, frame: int): (r: Rendered)
    ensures r.offset <= GIVE_UP
    ensures r.value == r.table[ServedSlot(text, r)]
    ensures Matches(r.value, RequestKey(text, width, fontSize)) && r.value.lastFrame == frame
    ensures r.hit ==> r.offset < GIVE_UP
                      && Matches(t[ServedSlot(text, r)], RequestKey(text, width, fontSize))
                      && !Stale(t[ServedSlot(text, r)], frame)
                      && r.value == t[ServedSlot(text, r)].(lastFrame := frame)
    ensures !r.hit ==> var pen := RenderPen(advances, width, fontSize);
                       && r.value.height == pen.y + fontSize
                       && r.value.actualWidth == (if pen.y == 0.0 then pen.x else width)
  {
    var key := RequestKey(text, width, fontSize);
    var start := HashKey(key) % CACHE_SIZE;
    var found := LookupFrom(t, key, start, 0, frame);
    if found.hit.Some? then
      var slot := ProbeSlot(start, found.hit.value);
      ProbeBijection(start);
      var table: Table := found.table[slot := found.table[slot].(lastFrame := frame)];
      Rendered(table[slot], table, found.hit.value, true)
    else
      var filled := Populate(found.table, text, advances, key.hash, width, fontSize, frame, HashKey(key));
      var slot := ProbeSlot(start, filled.offset);
      var table: Table := filled.table[slot := filled.table[slot].(lastFrame := frame)];
      Rendered(table[slot], table, filled.offset, false)
  }

  /** A request hits whenever a live slot with exactly its key lies inside
      the 20-slot probe window. */
  lemma HitWhenPresent(t: Table, text: seq<Byte>, advances: seq<Pixels>, width: Pixels, fontSize: Pixels, frame: int, j: nat)
    requires j < GIVE_UP
    requires Matches(t[ProbeSlot(StartSlot(text), j)], RequestKey(text, width, fontSize))
    requires !Stale(t[ProbeSlot(StartSlot(text), j)], frame)
    ensures Render(t, text, advances, width, fontSize, frame).hit
  {
    var key := RequestKey(text, width, fontSize);
    var start := StartSlot(text);
    var found := LookupFrom(t, key, start, 0, frame);
    ProbeBijection(start);
  }

  /** The served slot is the first slot of the probe window that holds the
      request's key afterwards. */
  lemma ServedIsFirstMatch(t: Table, text: seq<Byte>, advances: seq<Pixels>, width: Pixels, fontSize: Pixels, frame: int, j: nat)
    requires j < Render(t, text, advances, width, fontSize, frame).offset
    ensures !Matches(Render(t, text, advances, width, fontSize, frame).table[ProbeSlot(StartSlot(text), j)], RequestKey(text, width, fontSize))
  {
    var key := RequestKey(text, width, fontSize);
    var start := StartSlot(text);
    var found := LookupFrom(t, key, start, 0, frame);
    var r := Render(t, text, advances, width, fontSize, frame);
    var sj := ProbeSlot(start, j);
    ProbeRoundTrip(start, j);
    ProbeRoundTrip(start, r.offset);
    assert sj != ProbeSlot(start, r.offset);
    assert !Matches(found.table[sj], key);
    if found.hit.None? {
      var filled := Populate(found.table, text, advances, key.hash, width, fontSize, frame, HashKey(key));
      assert filled.table[sj] == found.table[sj];
    }
  }

  /** Apart from the served slot, a render never marks a slot used. */
  lemma RenderUsesOnlyServedSlot(t: Table, text: seq<Byte>, advances: seq<Pixels>, width: Pixels, fontSize: Pixels, frame: int, i: nat)
    requires i < CACHE_SIZE
    requires i != ServedSlot(text, Render(t, text, advances, width, fontSize, frame))
    ensures Render(t, text, advances, width, fontSize, frame).table[i].used ==> t[i].used
  {
    var key := RequestKey(text, width, fontSize);
    var start := StartSlot(text);
    LookupOnlyReleases(t, key, start, frame, i);
  }

  /** A lookup stops at the first live slot holding the key. */
  lemma LookupFindsFirstMatch(t: Table, key: Key, start: nat, frame: int, off: nat)
    requires start < CACHE_SIZE && off < GIVE_UP
    requires forall j :: 0 <= j < off ==> !Matches(t[ProbeSlot(start, j)], key)
    requires Matches(t[ProbeSlot(start, off)], key) && !Stale(t[ProbeSlot(start, off)], frame)
    ensures LookupFrom(t, key, start, 0, frame).hit == Some(off)
  {
    var found := LookupFrom(t, key, start, 0, frame);
    var s := ProbeSlot(start, off);
    ProbeRoundTrip(start, off);
    assert Release(t[s], frame) == t[s];
    assert found.table[s] == t[s];
    forall h | 0 <= h < off
      ensures !Matches(found.table[ProbeSlot(start, h)], key)
    {
      ProbeRoundTrip(start, h);
    }
    assert found.hit.Some?;
    assert found.hit.Some? ==> found.hit.value <= off;
    assert found.hit.Some? ==> found.hit.value >= off;
  }

  /** Once a request has been served from inside the probe window, the same
      request hits that same slot, with the same rendering, for the next 100
      frames (nothing else touching the table in between). */
  lemma RepeatedRequestHits(t: Table, text: seq<Byte>, advances: seq<Pixels>, width: Pixels, fontSize: Pixels, frame: int, later: int)
    requires frame <= later <= frame + LOOKUP_MAX_AGE
    requires Render(t, text, advances, width, fontSize, frame).offset < GIVE_UP
    ensures var first := Render(t, text, advances, width, fontSize, frame);
            var second := Render(first.table, text, advances, width, fontSize, later);
            && second.hit
            && second.offset == first.offset
            && second.value == first.value.(lastFrame := later)
  {
    var first := Render(t, text, advances, width, fontSize, frame);
    var key := RequestKey(text, width, fontSize);
    var start := StartSlot(text);
    forall j | 0 <= j < first.offset
      ensures !Matches(first.table[ProbeSlot(start, j)], key)
    {
      ServedIsFirstMatch(t, text, advances, width, fontSize, frame, j);
    }
    LookupFindsFirstMatch(first.table, key, start, later, first.offset);
  }

  // ---------------------------------------------------------------------
  // hui_get_text_cache_used

  function UsedCount(s: seq<Slot>): nat {
    if |s| == 0 then 0 else UsedCount(s[..|s| - 1]) + (if s[|s| - 1].used then 1 else 0)
  }

  lemma {:induction false} UsedCountAtMostLength(s: seq<Slot>)
    ensures UsedCount(s) <= |s|
  {
    if |s| > 0 {
      UsedCountAtMostLength(s[..|s| - 1]);
    }
  }

  /** `hui_get_text_cache_used`: counts the used slots. */
  method GetTextCacheUsed(t: Table) returns (count: nat)
    ensures count == UsedCount(t)
    ensures count <= CACHE_SIZE
  {
    count := 0;
    var i := 0;
    while i < CACHE_SIZE
      invariant 0 <= i <= CACHE_SIZE
      invariant count == UsedCount(t[..i])
    {
      assert t[..i + 1][..i] == t[..i];
      if t[i].used {
        count := count + 1;
      }
      i := i + 1;
    }
    assert t[..CACHE_SIZE] == t;
    UsedCountAtMostLength(t);
  }

  /** If `a` has a used slot only where `b` does, except perhaps at one
      index, then `a` has at most one more used slot than `b`. */
  lemma {:induction false} UsedCountGrowsByAtMostOne(a: seq<Slot>, b: seq<Slot>, except: nat)
    requires |a| == |b|
    requires forall i :: 0 <= i < |a| && i != except && a[i].used ==> b[i].used
    ensures UsedCount(a) <= UsedCount(b) + (if except < |a| then 1 else 0)
  {
    if |a| > 0 {
      var n := |a| - 1;
      UsedCountGrowsByAtMostOne(a[..n], b[..n], if except == n then |a| else except);
    }
  }

  /** A cached render adds at most one used slot to the table. */
  lemma RenderAddsAtMostOneSlot(t: Table, text: seq<Byte>, advances: seq<Pixels>, width: Pixels, fontSize: Pixels, frame: int)
    ensures UsedCount(Render(t, text, advances, width, fontSize, frame).table) <= UsedCount(t) + 1
  {
    var r := Render(t, text, advances, width, fontSize, frame);
    forall i | 0 <= i < CACHE_SIZE && i != ServedSlot(text, r) && r.table[i].used
      ensures t[i].used
    {
      RenderUsesOnlyServedSlot(t, text, advances, width, fontSize, frame, i);
    }
    UsedCountGrowsByAtMostOne(r.table, t, ServedSlot(text, r));
  }
}
