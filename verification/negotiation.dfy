/** The element's negotiation decisions: the alpha gate of fixation, the
    buffer-pool choice of the allocation query, and what `alloc` allocates. */
module Negotiation {
  import opened Types
  import opened Arithmetic

  // ---------------------------------------------------------------------------
  // Fixation

  /** What `fixate` does with the proposed caps: hand them back untouched, or
      fixate width, height and framerate and pass them to the parent class. */
  datatype FixateStep = KeepCaps | FixateFields

  /** The alpha byte of a big-endian ARGB colour (`color >> 24`). */
  function Alpha(color: U32): nat {
    color / 0x100_0000
  }

  /** Fixation goes ahead only for an opaque foreground colour, i.e. exactly
      when the colour is at least 0xFF000000. */
  function FixateStepFor(foreground: U32): (r: FixateStep)
    ensures r == KeepCaps <==> foreground < 0xFF00_0000
  {
    if Alpha(foreground) != 255 then KeepCaps else FixateFields
  }

  // ---------------------------------------------------------------------------
  // Allocation

  /** A buffer pool: a new video pool the element creates, or one a peer proposed. */
  datatype Pool = NewVideoPool | Peer(id: nat)

  /** One entry of the allocation query: an optional pool with its buffer size
      and minimum and maximum buffer counts. */
  datatype PoolEntry = PoolEntry(pool: Option<Pool>, size: U32, min: U32, max: U32)

  /** The configuration the element gives the chosen pool. */
  datatype PoolConfig = PoolConfig(pool: Pool, size: U32, min: U32, max: U32, videoMeta: bool)

  /** The outcome of a successful decision: the pool's configuration, whether
      entry 0 of the query was updated (rather than an entry added), and the
      query's pool entries afterwards. */
  datatype Allocation = Allocation(config: PoolConfig, update: bool, pools: seq<PoolEntry>)

  /** The pool rejected its configuration. */
  datatype AllocationError = ConfigRejected

  /** The pool, size, counts and update flag chosen from the proposed pools:
      the first proposal when there is one, a fresh pool otherwise. */
  function ChoosePool(infoSize: nat, proposals: seq<PoolEntry>): (r: (PoolEntry, bool))
    ensures r.0.pool.Some?
    ensures r.1 <==> proposals != []
    ensures proposals == [] ==> r.0 == PoolEntry(Some(NewVideoPool), AsU32(infoSize), 0, 0)
    ensures proposals != [] ==>
              r.0.min == proposals[0].min && r.0.max == proposals[0].max &&
              r.0.pool == Some(if proposals[0].pool.Some? then proposals[0].pool.value else NewVideoPool)
    ensures infoSize < U32_LIMIT ==>
              r.0.size >= infoSize && (proposals != [] ==> r.0.size >= proposals[0].size) &&
              (r.0.size == infoSize || (proposals != [] && r.0.size == proposals[0].size))
    ensures infoSize >= U32_LIMIT ==> r.0.size == AsU32(infoSize)
  {
    if proposals == [] then
      (PoolEntry(Some(NewVideoPool), AsU32(infoSize), 0, 0), false)
    else
      var p := proposals[0];
      var pool := if p.pool.None? then NewVideoPool else p.pool.value;
      (PoolEntry(Some(pool), AsU32(Max(infoSize, p.size)), p.min, p.max), true)
  }

  /** The allocation decision for a frame of `infoSize` bytes. `videoMeta` says
      whether the query asks for video metadata; `accepted` is whether the pool
      takes the configuration. On success the chosen entry sits at index 0 of
      the query and every other proposal is left as it was. */
  function DecideAllocation(infoSize: nat, proposals: seq<PoolEntry>, videoMeta: bool, accepted: bool)
    : (r: Result<Allocation, AllocationError>)
    ensures r.Err? <==> !accepted
    ensures r.Ok? ==>
              var a := r.value;
              var chosen := ChoosePool(infoSize, proposals).0;
              a.update == (proposals != []) &&
              a.config == PoolConfig(chosen.pool.value, chosen.size, chosen.min, chosen.max, videoMeta) &&
              a.pools == [chosen] + (if proposals == [] then [] else proposals[1..])
  {
    var (chosen, update) := ChoosePool(infoSize, proposals);
    var config := PoolConfig(chosen.pool.value, chosen.size, chosen.min, chosen.max, videoMeta);
    if !accepted then Err(ConfigRejected)
    else if update then Ok(Allocation(config, true, proposals[0 := chosen]))
    else Ok(Allocation(config, false, proposals + [chosen]))
  }

  /** A proposed pool whose buffers are smaller than a frame is updated to the
      frame size, never kept smaller, and reported as an update. */
  lemma SmallPoolGrowsToFrame(infoSize: nat, proposals: seq<PoolEntry>, videoMeta: bool)
    requires infoSize < U32_LIMIT && proposals != [] && proposals[0].size < infoSize
    ensures DecideAllocation(infoSize, proposals, videoMeta, true).Ok?
    ensures DecideAllocation(infoSize, proposals, videoMeta, true).value.config.size == infoSize
    ensures DecideAllocation(infoSize, proposals, videoMeta, true).value.update
  {
  }

  // ---------------------------------------------------------------------------
  // Raw allocation

  /** Where `alloc` takes a buffer from: the negotiated pool, or a new raw buffer. */
  datatype BufferSource = FromPool | RawBuffer(size: nat)

  /** The buffer `alloc` provides. With a pool the buffer comes from it.
      Without one a raw buffer of `width * height * 4` bytes, computed in
      `u32`, is allocated; `obtained` says whether that allocation succeeds,
      and a failed one is a flow error. */
  function AllocSource(info: VideoInfo, hasPool: bool, obtained: bool): (r: Result<BufferSource, FlowError>)
    requires !hasPool ==> info.width * info.height * 4 < U32_LIMIT
    ensures r.Err? <==> !hasPool && !obtained
    ensures r.Err? ==> r.error == Error
    ensures r.Ok? ==> (r.value.RawBuffer? <==> !hasPool)
    ensures r.Ok? && r.value.RawBuffer? ==> r.value.size == info.width * info.height * 4
  {
    if hasPool then Ok(FromPool)
    else if obtained then Ok(RawBuffer(info.width * info.height * 4))
    else Err(Error)
  }

  /** A raw buffer holds exactly `height` unpadded rows of `width` four-byte
      pixels: cut into rows of `4 * width` bytes it has `height` whole rows and
      no trailing bytes. */
  lemma RawBufferHoldsFrame(info: VideoInfo)
    requires info.width > 0 && info.width * info.height * 4 < U32_LIMIT
    ensures var size := AllocSource(info, false, true).value.size;
            size / (4 * info.width) == info.height && size % (4 * info.width) == 0
  {
    var size := AllocSource(info, false, true).value.size;
    assert size == info.height * (4 * info.width);
    RowColumn(size, info.height, 4 * info.width);
  }
}
