/** The learning filter for RM ioctl replies: card-info replies teach at most 32 GPU ids, and
    later replies are rewritten in place to show only learned ids. */
module IoctlFilter {
  import opened Text
  import opened GpuPaths

  type U32 = x: int | 0 <= x < 0x1_0000_0000

  const INVALID_ID: U32 := 0xffff_ffff
  const MAX_IDS := 32
  const MAX_CARDS := 32
  const MAX_ATTACHED := 32
  const MAX_ACTIVE := 256
  /** Bytes of 32 ids, and of a count followed by 256 entries of three words. */
  const ATTACHED_SIZE := 4 * MAX_ATTACHED
  const ACTIVE_SIZE := 4 + 12 * MAX_ACTIVE

  datatype Card = Card(valid: bool, gpuId: U32, minor: U32)

  datatype Device = Device(gpuId: U32, gpuInstanceId: U32, computeInstanceId: U32)

  const ZERO_DEVICE := Device(0, 0, 0)

  /** The part of the RM control wrapper the filter looks at. */
  datatype Header = Header(status: int, hasParams: bool, paramsSize: nat)

  datatype Reply =
    | CardInfo(cards: seq<Card>)
    | Attached(rm: Header, ids: seq<U32>)
    | Active(rm: Header, numDevices: U32, devices: seq<Device>)
    | OtherReply

  /** The two switches, and the allowed set (not valid when topology detection failed). */
  datatype Config = Config(gpuVideo: bool, gpuIoctl: bool, allowed: AllowedGpus)

  predicate IsDevice(gpu: GpuInfo, minor: U32) {
    gpu.present && gpu.deviceMinor >= 0 && gpu.deviceMinor == minor
  }

  predicate AllowsMinor(allowed: AllowedGpus, minor: U32) {
    allowed.valid &&
    exists i | 0 <= i < |allowed.gpus| :: IsDevice(allowed.gpus[i], minor)
  }

  // ----- the list-level meaning

  function Remember(learned: seq<U32>, id: U32): seq<U32> {
    if id == INVALID_ID || id in learned || |learned| >= MAX_IDS then learned else learned + [id]
  }

  function LearnCard(allowed: AllowedGpus, learned: seq<U32>, card: Card): seq<U32> {
    if card.valid && AllowsMinor(allowed, card.minor) then Remember(learned, card.gpuId) else learned
  }

  function Learn(allowed: AllowedGpus, learned: seq<U32>, cards: seq<Card>): seq<U32>
    decreases |cards|
  {
    if cards == [] then learned
    else
      Learn(allowed, LearnCard(allowed, learned, cards[0]), cards[1..])
  }

  function HideCard(allowed: AllowedGpus, card: Card): Card {
    if card.valid && !AllowsMinor(allowed, card.minor) then card.(valid := false) else card
  }

  function HideCards(allowed: AllowedGpus, cards: seq<Card>): seq<Card> {
    seq(|cards|, i requires 0 <= i < |cards| => HideCard(allowed, cards[i]))
  }

  /** The learned ids before the first invalid one, in order. */
  function KeptIds(learned: seq<U32>, ids: seq<U32>): (kept: seq<U32>)
    ensures |kept| <= |ids|
  {
    if ids == [] || ids[0] == INVALID_ID then []
    else (if ids[0] in learned then [ids[0]] else []) + KeptIds(learned, ids[1..])
  }

  function FilterIds(learned: seq<U32>, ids: seq<U32>): seq<U32> {
    if learned == [] then ids
    else
      var kept := KeptIds(learned, ids);
      seq(|ids|, i => if 0 <= i < |kept| then kept[i] else INVALID_ID)
  }

  function KeptDevices(learned: seq<U32>, devices: seq<Device>): (kept: seq<Device>)
    ensures |kept| <= |devices|
  {
    if devices == [] then []
    else (if devices[0].gpuId in learned then [devices[0]] else []) + KeptDevices(learned, devices[1..])
  }

  function Shown(numDevices: U32, devices: seq<Device>): seq<Device> {
    if numDevices <= |devices| then devices[..numDevices] else devices
  }

  /** The kept entries, then zeroed ones. */
  function FilterDevices(learned: seq<U32>, numDevices: U32, devices: seq<Device>): (out: seq<Device>)
    ensures |out| == |devices|
  {
    var kept := KeptDevices(learned, Shown(numDevices, devices));
    kept + seq(|devices| - |kept|, _ => ZERO_DEVICE)
  }

  predicate Enabled(cfg: Config, result: int, rm: Header) {
    cfg.gpuVideo && cfg.gpuIoctl && cfg.allowed.valid && result == 0 && rm.status == 0 && rm.hasParams
  }

  /** The array sizes of the C structures. */
  predicate Sized(reply: Reply) {
    && (reply.CardInfo? ==> |reply.cards| == MAX_CARDS)
    && (reply.Attached? ==> |reply.ids| == MAX_ATTACHED)
    && (reply.Active? ==> |reply.devices| == MAX_ACTIVE)
  }

  /** The reply handed on. */
  function Rewritten(cfg: Config, learned: seq<U32>, result: int, reply: Reply): Reply
    requires Sized(reply)
  {
    match reply
    case CardInfo(cards) =>
      if result == 0 && cfg.allowed.valid && cfg.gpuVideo && cfg.gpuIoctl
      then CardInfo(HideCards(cfg.allowed, cards)) else reply
    case Attached(rm, ids) =>
      if Enabled(cfg, result, rm) && rm.paramsSize >= ATTACHED_SIZE
      then Attached(rm, FilterIds(learned, ids)) else reply
    case Active(rm, numDevices, devices) =>
      if Enabled(cfg, result, rm) && rm.paramsSize >= ACTIVE_SIZE && learned != [] then
        Active(rm, |KeptDevices(learned, Shown(numDevices, devices))|, FilterDevices(learned, numDevices, devices))
      else reply
    case OtherReply => reply
  }

  /** The ids known after a reply. Card-info replies teach whether or not rewriting is on. */
  function Learned(cfg: Config, learned: seq<U32>, result: int, reply: Reply): seq<U32> {
    if result == 0 && reply.CardInfo? && cfg.allowed.valid then Learn(cfg.allowed, learned, reply.cards) else learned
  }

  // ----- learning, over every sequence of replies

  datatype Event = Event(result: int, reply: Reply)

  function LearnAll(cfg: Config, learned: seq<U32>, events: seq<Event>): seq<U32>
    decreases |events|
  {
    if events == [] then learned
    else LearnAll(cfg, Learned(cfg, learned, events[0].result, events[0].reply), events[1..])
  }

  ghost predicate IdsOk(learned: seq<U32>) {
    |learned| <= MAX_IDS && INVALID_ID !in learned && forall i, j :: 0 <= i < j < |learned| ==> learned[i] != learned[j]
  }

  /** `id` stands in a valid card with an allowed minor. */
  ghost predicate Teaches(allowed: AllowedGpus, cards: seq<Card>, id: U32) {
    exists c | 0 <= c < |cards| :: cards[c].valid && AllowsMinor(allowed, cards[c].minor) && cards[c].gpuId == id
  }

  lemma {:induction false} LearnKeepsIds(allowed: AllowedGpus, learned: seq<U32>, cards: seq<Card>)
    requires IdsOk(learned)
    ensures IdsOk(Learn(allowed, learned, cards)) && learned <= Learn(allowed, learned, cards)
    decreases |cards|
  {
    if cards != [] {
      LearnKeepsIds(allowed, LearnCard(allowed, learned, cards[0]), cards[1..]);
    }
  }

  lemma {:induction false} LearnOnlyTaught(allowed: AllowedGpus, learned: seq<U32>, cards: seq<Card>, id: U32)
    requires id in Learn(allowed, learned, cards)
    ensures id in learned || Teaches(allowed, cards, id)
    decreases |cards|
  {
    if cards != [] {
      var next := LearnCard(allowed, learned, cards[0]);
      LearnOnlyTaught(allowed, next, cards[1..], id);
      if Teaches(allowed, cards[1..], id) {
        var c :| 0 <= c < |cards| - 1 && cards[1..][c].valid && AllowsMinor(allowed, cards[1..][c].minor)
                 && cards[1..][c].gpuId == id;
        assert cards[c + 1] == cards[1..][c];
      } else if id !in learned {
        assert cards[0].gpuId == id;
      }
    }
  }

  /** Nothing that is taught is forgotten, unless the 32 places are taken. */
  lemma {:induction false} LearnAllTaught(allowed: AllowedGpus, learned: seq<U32>, cards: seq<Card>, id: U32)
    requires IdsOk(learned) && Teaches(allowed, cards, id) && id != INVALID_ID
    ensures id in Learn(allowed, learned, cards) || |Learn(allowed, learned, cards)| == MAX_IDS
    decreases |cards|
  {
    var next := LearnCard(allowed, learned, cards[0]);
    LearnKeepsIds(allowed, next, cards[1..]);
    if id !in next && |next| < MAX_IDS {
      var c :| 0 <= c < |cards| && cards[c].valid && AllowsMinor(allowed, cards[c].minor) && cards[c].gpuId == id;
      assert c > 0 && cards[1..][c - 1] == cards[c];
      LearnAllTaught(allowed, next, cards[1..], id);
    }
  }

  /** An earlier or current reply of the run taught `id`. */
  ghost predicate TaughtIn(cfg: Config, events: seq<Event>, id: U32) {
    exists k | 0 <= k < |events| ::
      events[k].result == 0 && events[k].reply.CardInfo? && Teaches(cfg.allowed, events[k].reply.cards, id)
  }

  /** Over every sequence of replies the ids stay distinct, valid and at most 32, only grow,
      and each new one was taught by a successful card-info reply of the run. */
  lemma {:induction false} LearningIsSound(cfg: Config, learned: seq<U32>, events: seq<Event>)
    requires IdsOk(learned)
    ensures var end := LearnAll(cfg, learned, events);
            IdsOk(end) && learned <= end && forall id :: id in end ==> id in learned || TaughtIn(cfg, events, id)
    decreases |events|
  {
    hide IdsOk, Learn, Teaches;
    if events != [] {
      var e, rest := events[0], events[1..];
      var next := Learned(cfg, learned, e.result, e.reply);
      if e.reply.CardInfo? {
        LearnKeepsIds(cfg.allowed, learned, e.reply.cards);
      }
      LearningIsSound(cfg, next, rest);
      forall id | id in LearnAll(cfg, learned, events)
        ensures id in learned || TaughtIn(cfg, events, id)
      {
        if id in next {
          if id !in learned {
            LearnOnlyTaught(cfg.allowed, learned, e.reply.cards, id);
            assert events[0] == e;
          }
        } else {
          var k :| 0 <= k < |rest| && rest[k].result == 0 && rest[k].reply.CardInfo?
                   && Teaches(cfg.allowed, rest[k].reply.cards, id);
          assert events[k + 1] == rest[k];
        }
      }
    }
  }

  // ----- what the rewritten replies show

  /** The kept ids are the input up to the first invalid id, without the unknown ones. */
  lemma {:induction false} KeptIdsAreLearned(learned: seq<U32>, ids: seq<U32>)
    requires INVALID_ID !in learned
    ensures forall i :: 0 <= i < |KeptIds(learned, ids)| ==>
              KeptIds(learned, ids)[i] in learned && KeptIds(learned, ids)[i] in ids
    ensures forall i :: 0 <= i < |KeptIds(learned, ids)| ==> KeptIds(learned, ids)[i] != INVALID_ID
  {
    if ids != [] && ids[0] != INVALID_ID {
      KeptIdsAreLearned(learned, ids[1..]);
    }
  }

  /** `id` stands at position `k`, before any invalid id. */
  ghost predicate ListedAt(ids: seq<U32>, id: U32, k: nat) {
    k < |ids| && ids[k] == id && INVALID_ID !in ids[..k+1]
  }

  /** An id is shown iff it is learned and stands before the first invalid id. */
  lemma {:induction false} KeptIdsExact(learned: seq<U32>, ids: seq<U32>, id: U32)
    ensures id in KeptIds(learned, ids) <==> id in learned && exists k: nat :: ListedAt(ids, id, k)
  {
    if ids != [] {
      KeptIdsExact(learned, ids[1..], id);
      if ids[0] != INVALID_ID {
        forall k: nat
          ensures ListedAt(ids[1..], id, k) <==> ListedAt(ids, id, k + 1)
        {
          if k + 1 < |ids| {
            assert ids[..k+2] == [ids[0]] + ids[1..][..k+1];
          }
        }
        assert ListedAt(ids, id, 0) <==> ids[0] == id;
        if k: nat :| ListedAt(ids, id, k) {
          assert k == 0 || ListedAt(ids[1..], id, k - 1);
        }
        if k: nat :| ListedAt(ids[1..], id, k) {
          assert ListedAt(ids, id, k + 1);
        }
      } else {
        forall k: nat
          ensures !ListedAt(ids, id, k)
        {
          assert k < |ids| ==> ids[..k+1][0] == INVALID_ID;
        }
      }
    }
  }

  /** Once the tail is invalid, filtering again keeps the same ids. */
  lemma {:induction false} KeptIdsOfPadded(learned: seq<U32>, kept: seq<U32>, pad: seq<U32>)
    requires forall i :: 0 <= i < |kept| ==> kept[i] in learned && kept[i] != INVALID_ID
    requires pad == [] || pad[0] == INVALID_ID
    ensures KeptIds(learned, kept + pad) == kept
    decreases |kept|
  {
    if kept == [] {
      assert kept + pad == pad;
    } else {
      assert (kept + pad)[1..] == kept[1..] + pad;
      KeptIdsOfPadded(learned, kept[1..], pad);
    }
  }

  lemma AttachedFilterIdempotent(learned: seq<U32>, ids: seq<U32>)
    requires INVALID_ID !in learned
    ensures FilterIds(learned, FilterIds(learned, ids)) == FilterIds(learned, ids)
  {
    var kept := KeptIds(learned, ids);
    KeptIdsAreLearned(learned, ids);
    if learned != [] {
      var once := FilterIds(learned, ids);
      assert once == kept + once[|kept|..];
      KeptIdsOfPadded(learned, kept, once[|kept|..]);
    }
  }

  lemma {:induction false} KeptDevicesAreLearned(learned: seq<U32>, devices: seq<Device>)
    ensures forall i :: 0 <= i < |KeptDevices(learned, devices)| ==> KeptDevices(learned, devices)[i].gpuId in learned
  {
    if devices != [] {
      KeptDevicesAreLearned(learned, devices[1..]);
    }
  }

  lemma {:induction false} KeptDevicesOfKept(learned: seq<U32>, kept: seq<Device>)
    requires forall i :: 0 <= i < |kept| ==> kept[i].gpuId in learned
    ensures KeptDevices(learned, kept) == kept
  {
    if kept != [] {
      KeptDevicesOfKept(learned, kept[1..]);
    }
  }

  /** Rewriting a rewritten reply changes nothing. */
  lemma RewriteIdempotent(cfg: Config, learned: seq<U32>, result: int, reply: Reply)
    requires Sized(reply) && INVALID_ID !in learned
    ensures var once := Rewritten(cfg, learned, result, reply);
            Sized(once) && Rewritten(cfg, learned, result, once) == once
  {
    match reply
    case Attached(rm, ids) => AttachedFilterIdempotent(learned, ids);
    case Active(rm, numDevices, devices) =>
      var kept := KeptDevices(learned, Shown(numDevices, devices));
      KeptDevicesAreLearned(learned, Shown(numDevices, devices));
      KeptDevicesOfKept(learned, kept);
      assert Shown(|kept|, FilterDevices(learned, numDevices, devices)) == kept;
    case _ =>
  }

  /** What an application can see of a reply: card ids, attached ids up to the first invalid
      one, and the counted active devices. */
  ghost predicate Shows(reply: Reply, id: U32) {
    match reply
    case CardInfo(_) => false
    case Attached(_, ids) => exists k: nat :: ListedAt(ids, id, k)
    case Active(_, numDevices, devices) => exists k | 0 <= k < |devices| && k < numDevices :: devices[k].gpuId == id
    case OtherReply => false
  }

  predicate Filterable(cfg: Config, result: int, reply: Reply) {
    || (reply.Attached? && Enabled(cfg, result, reply.rm) && reply.rm.paramsSize >= ATTACHED_SIZE)
    || (reply.Active? && Enabled(cfg, result, reply.rm) && reply.rm.paramsSize >= ACTIVE_SIZE)
  }

  /** At any point of any run: with something learned, a filterable reply shows only ids some
      allowed card taught; with nothing learned it is handed on untouched. */
  lemma RepliesShowOnlyTaught(cfg: Config, events: seq<Event>, result: int, reply: Reply, id: U32)
    requires Sized(reply) && Filterable(cfg, result, reply)
    ensures var learned := LearnAll(cfg, [], events);
            && (learned == [] ==> Rewritten(cfg, learned, result, reply) == reply)
            && (learned != [] && Shows(Rewritten(cfg, learned, result, reply), id) ==>
                  id in learned && TaughtIn(cfg, events, id))
  {
    var learned := LearnAll(cfg, [], events);
    LearningIsSound(cfg, [], events);
    hide LearnAll, TaughtIn;
    if learned != [] && Shows(Rewritten(cfg, learned, result, reply), id) {
      match reply
      case Attached(rm, ids) =>
        KeptIdsAreLearned(learned, ids);
        var out := FilterIds(learned, ids);
        var k: nat :| ListedAt(out, id, k);
        assert out[..k+1][k] == id;
      case Active(rm, numDevices, devices) =>
        KeptDevicesAreLearned(learned, Shown(numDevices, devices));
      case _ =>
    }
  }

  // ----- what each reply becomes, field by field

  /** The ids that are kept stand before `end`, in order and each place once. */
  lemma {:induction false} KeptIdsAt(learned: seq<U32>, ids: seq<U32>) returns (at: seq<nat>, end: nat)
    ensures end <= |ids| && INVALID_ID !in ids[..end] && (end < |ids| ==> ids[end] == INVALID_ID)
    ensures Selects(ids, at, KeptIds(learned, ids))
    ensures forall i: nat :: i in at <==> i < end && ids[i] in learned
  {
    hide Selects, NextPositions;
    if ids == [] || ids[0] == INVALID_ID {
      at, end := [], 0;
      NoPositions(ids);
    } else {
      var below, last := KeptIdsAt(learned, ids[1..]);
      var keep := ids[0] in learned;
      at, end := NextPositions(below, keep), last + 1;
      assert ids == [ids[0]] + ids[1..] && ids[..end] == [ids[0]] + ids[1..][..last];
      SelectsCons(ids[0], ids[1..], below, KeptIds(learned, ids[1..]), keep);
      forall i: nat
        ensures i in at <==> i < end && ids[i] in learned
      {
        if i > 0 {
          assert i in at <==> i - 1 in below;
        }
      }
    }
  }

  lemma NoPositions<T>(all: seq<T>)
    ensures Selects(all, [], [])
  {
  }

  lemma {:induction false} KeptDevicesAt(learned: seq<U32>, devices: seq<Device>) returns (at: seq<nat>)
    ensures Selects(devices, at, KeptDevices(learned, devices))
    ensures forall i: nat :: i in at <==> i < |devices| && devices[i].gpuId in learned
  {
    hide Selects, NextPositions;
    if devices == [] {
      at := [];
      NoPositions(devices);
    } else {
      var below := KeptDevicesAt(learned, devices[1..]);
      var keep := devices[0].gpuId in learned;
      at := NextPositions(below, keep);
      assert devices == [devices[0]] + devices[1..];
      SelectsCons(devices[0], devices[1..], below, KeptDevices(learned, devices[1..]), keep);
      forall i: nat
        ensures i in at <==> i < |devices| && devices[i].gpuId in learned
      {
        if i > 0 {
          assert i in at <==> i - 1 in below;
        }
      }
    }
  }

  ghost predicate ShowsIdsAt(learned: seq<U32>, ids: seq<U32>, out: seq<U32>, at: seq<nat>, end: nat) {
    && end <= |ids| && 0xffff_ffff !in ids[..end] && (end < |ids| ==> ids[end] == 0xffff_ffff)
    && (forall i: nat :: i in at <==> i < end && ids[i] in learned)
    && |at| <= |out| && Selects(ids, at, out[..|at|])
    && forall k :: |at| <= k < |out| ==> out[k] == 0xffff_ffff
  }

  /** What filtering makes of a reply. A card is hidden iff no GPU of the set has its minor, and
      nothing else of it changes. A list of ids shows every learned id in front of the list's
      end, in order and as often as the driver listed it, and invalid ids from there on. A list
      of active devices holds every counted entry of a learned id, whole, in order and as often
      as listed, and zeroed entries behind; its count is theirs. */
  ghost predicate IsFiltered(allowed: AllowedGpus, learned: seq<U32>, reply: Reply, out: Reply) {
    match reply
    case CardInfo(cards) =>
      && out.CardInfo? && |out.cards| == |cards|
      && forall i :: 0 <= i < |cards| ==>
           && out.cards[i].gpuId == cards[i].gpuId && out.cards[i].minor == cards[i].minor
           && (out.cards[i].valid <==>
                 && cards[i].valid
                 && exists gpu :: gpu in allowed.gpus && gpu.present && gpu.deviceMinor == cards[i].minor)
    case Attached(rm, ids) =>
      && out.Attached? && out.rm == rm && |out.ids| == |ids|
      && exists at: seq<nat>, end: nat :: ShowsIdsAt(learned, ids, out.ids, at, end)
    case Active(rm, numDevices, devices) =>
      && out.Active? && out.rm == rm && |out.devices| == |devices| && out.numDevices <= |devices|
      && (exists at: seq<nat> :: Selects(devices, at, out.devices[..out.numDevices]) &&
            forall i: nat :: i in at <==> i < numDevices && i < |devices| && devices[i].gpuId in learned)
      && forall k :: out.numDevices <= k < |devices| ==> out.devices[k] == Device(0, 0, 0)
    case OtherReply => out == reply
  }

  /** The conditions on the reply itself: the call and, but for card info, the RM control have
      succeeded, the structure is whole, and some id is learned to filter by. */
  predicate CanFilter(learned: seq<U32>, result: int, reply: Reply) {
    && result == 0
    && (reply.Attached? ==> learned != [] && reply.rm.status == 0 && reply.rm.hasParams && reply.rm.paramsSize >= 128)
    && (reply.Active? ==> learned != [] && reply.rm.status == 0 && reply.rm.hasParams && reply.rm.paramsSize >= 3076)
  }

  /** With both switches on and a valid set a reply that can be filtered is filtered; in every
      other case it is handed on as it is. */
  lemma ReplyExact(cfg: Config, learned: seq<U32>, result: int, reply: Reply)
    requires Sized(reply)
    ensures var out := Rewritten(cfg, learned, result, reply);
            if cfg.gpuVideo && cfg.gpuIoctl && cfg.allowed.valid && CanFilter(learned, result, reply)
            then IsFiltered(cfg.allowed, learned, reply, out) else out == reply
  {
    if CanFilter(learned, result, reply) {
      match reply
      case Attached(rm, ids) =>
        var at, end := KeptIdsAt(learned, ids);
        var out, kept := FilterIds(learned, ids), KeptIds(learned, ids);
        assert out[..|kept|] == kept;
        assert ShowsIdsAt(learned, ids, out, at, end);
      case Active(rm, numDevices, devices) =>
        var shown := Shown(numDevices, devices);
        var at := KeptDevicesAt(learned, shown);
        var kept, out := KeptDevices(learned, shown), FilterDevices(learned, numDevices, devices);
        assert out[..|kept|] == kept;
        assert Selects(devices, at, kept);
      case _ =>
    }
  }

  /** What is learned from a reply: the ids of its valid cards with an allowed minor, as long as
      there is room, behind what was known; nothing from a failed call or any other reply. */
  lemma LearnedExact(cfg: Config, learned: seq<U32>, result: int, reply: Reply, id: U32)
    requires IdsOk(learned)
    ensures var out := Learned(cfg, learned, result, reply);
            && learned <= out && |out| <= 32
            && (id in out ==> id in learned || FromCard(cfg, result, reply, id))
            && (FromCard(cfg, result, reply, id) && id != 0xffff_ffff ==> id in out || |out| == 32)
  {
    hide Learn;
    if result == 0 && reply.CardInfo? && cfg.allowed.valid {
      LearnKeepsIds(cfg.allowed, learned, reply.cards);
      if id in Learn(cfg.allowed, learned, reply.cards) {
        LearnOnlyTaught(cfg.allowed, learned, reply.cards, id);
      }
      if FromCard(cfg, result, reply, id) {
        assert Teaches(cfg.allowed, reply.cards, id);
        if id != INVALID_ID {
          LearnAllTaught(cfg.allowed, learned, reply.cards, id);
        }
      }
    }
  }

  /** The reply is a successful card-info reply with a valid card of this id, whose minor is that
      of a GPU of a valid set. */
  ghost predicate FromCard(cfg: Config, result: int, reply: Reply, id: U32) {
    && result == 0 && reply.CardInfo? && cfg.allowed.valid
    && exists card, gpu :: card in reply.cards && card.valid && card.gpuId == id
                           && gpu in cfg.allowed.gpus && gpu.present && gpu.deviceMinor == card.minor
  }

  // ----- the program

  class Filter {
    const ids: array<U32>
    var count: nat

    ghost predicate Valid()
      reads this, ids
    {
      ids.Length == MAX_IDS && count <= MAX_IDS
    }

    ghost function Known(): seq<U32>
      requires Valid()
      reads this, ids
    {
      ids[..count]
    }

    constructor ()
      ensures Valid() && fresh(ids) && Known() == []
    {
      ids := new U32[MAX_IDS];
      count := 0;
    }

    static method ContainsMinor(allowed: AllowedGpus, minor: U32) returns (found: bool)
      ensures found == AllowsMinor(allowed, minor)
    {
      if !allowed.valid {
        return false;
      }
      var i := 0;
      while i < |allowed.gpus|
        invariant i <= |allowed.gpus|
        invariant forall j :: 0 <= j < i ==> !IsDevice(allowed.gpus[j], minor)
      {
        if IsDevice(allowed.gpus[i], minor) {
          return true;
        }
        i := i + 1;
      }
      found := false;
    }

    method IsKnown(id: U32) returns (known: bool)
      requires Valid()
      ensures known <==> id in Known()
    {
      var i := 0;
      while i < count
        invariant i <= count && id !in ids[..i]
      {
        if ids[i] == id {
          return true;
        }
        i := i + 1;
      }
      known := false;
    }

    method RememberId(id: U32)
      requires Valid()
      modifies this, ids
      ensures Valid() && Known() == Remember(old(Known()), id)
    {
      var known := IsKnown(id);
      if id == INVALID_ID || known || count >= MAX_IDS {
        return;
      }
      ids[count] := id;
      count := count + 1;
    }

    method RecordCards(allowed: AllowedGpus, cards: array<Card>)
      requires Valid()
      modifies this, ids
      ensures Valid() && Known() == if allowed.valid then Learn(allowed, old(Known()), cards[..]) else old(Known())
    {
      if !allowed.valid {
        return;
      }
      var i := 0;
      assert cards[0..] == cards[..];
      while i < cards.Length
        invariant i <= cards.Length && Valid()
        invariant Learn(allowed, Known(), cards[i..]) == Learn(allowed, old(Known()), cards[..])
      {
        var card := cards[i];
        assert cards[i..][0] == card && cards[i..][1..] == cards[i+1..];
        var found := ContainsMinor(allowed, card.minor);
        if card.valid && found {
          RememberId(card.gpuId);
        }
        i := i + 1;
      }
    }

    static method FilterCards(allowed: AllowedGpus, cards: array<Card>)
      modifies cards
      ensures cards[..] == if allowed.valid then HideCards(allowed, old(cards[..])) else old(cards[..])
    {
      if !allowed.valid {
        return;
      }
      var i := 0;
      while i < cards.Length
        invariant i <= cards.Length
        invariant forall j :: 0 <= j < i ==> cards[j] == HideCard(allowed, old(cards[j]))
        invariant forall j :: i <= j < cards.Length ==> cards[j] == old(cards[j])
      {
        var found := ContainsMinor(allowed, cards[i].minor);
        if cards[i].valid && !found {
          cards[i] := cards[i].(valid := false);
        }
        i := i + 1;
      }
    }

    /** The temporary array holds 32 ids; with at most 32 inputs its bound never cuts. */
    method CollectIds(gpuIds: array<U32>) returns (temp: array<U32>, kept: nat)
      requires Valid() && gpuIds.Length <= MAX_IDS
      ensures fresh(temp) && kept <= gpuIds.Length <= temp.Length
      ensures temp[..kept] == KeptIds(Known(), gpuIds[..])
    {
      hide KeptIds;
      temp, kept := new U32[MAX_IDS], 0;
      var i := 0;
      ghost var known, all := Known(), gpuIds[..];
      ghost var goal := KeptIds(known, all);
      assert all[0..] == all;
      while i < gpuIds.Length
        invariant i <= gpuIds.Length && kept <= i
        invariant goal == temp[..kept] + KeptIds(known, all[i..])
        invariant gpuIds[..] == all && Known() == known
      {
        var id := gpuIds[i];
        KeptIdsStep(known, id, all[i+1..]);
        assert all[i..] == [id] + all[i+1..];
        if id == INVALID_ID {
          assert goal == temp[..kept];
          return;
        }
        var isKnown := IsKnown(id);
        if isKnown && kept < MAX_IDS {
          ghost var before := temp[..kept];
          temp[kept] := id;
          kept := kept + 1;
          assert temp[..kept] == before + [id];
        }
        i := i + 1;
      }
      NoKeptIds(known, all[i..]);
    }

    static lemma KeptIdsStep(known: seq<U32>, id: U32, rest: seq<U32>)
      ensures KeptIds(known, [id] + rest) ==
              if id == INVALID_ID then [] else (if id in known then [id] else []) + KeptIds(known, rest)
    {
      assert ([id] + rest)[1..] == rest;
    }

    static lemma NoKeptIds(known: seq<U32>, none: seq<U32>)
      requires none == []
      ensures KeptIds(known, none) == []
    {
    }

    method FilterIdArray(gpuIds: array<U32>) returns (filtered: bool, kept: nat)
      requires Valid() && gpuIds.Length <= MAX_IDS && gpuIds != ids
      modifies gpuIds
      ensures gpuIds[..] == FilterIds(Known(), old(gpuIds[..]))
      ensures filtered <==> gpuIds.Length > 0 && Known() != []
      ensures kept == if filtered then |KeptIds(Known(), old(gpuIds[..]))| else 0
    {
      if gpuIds.Length == 0 || count == 0 {
        return false, 0;
      }
      var temp;
      temp, kept := CollectIds(gpuIds);
      var i := 0;
      ghost var goal := temp[..kept];
      while i < gpuIds.Length
        invariant i <= gpuIds.Length && goal == temp[..kept] && Known() == old(Known())
        invariant forall j :: 0 <= j < i ==> gpuIds[j] == if j < kept then goal[j] else INVALID_ID
      {
        gpuIds[i] := if i < kept then temp[i] else INVALID_ID;
        i := i + 1;
      }
      filtered := true;
    }

    method CollectDevices(devices: array<Device>, shown: nat) returns (temp: array<Device>, kept: nat)
      requires Valid() && devices.Length == MAX_ACTIVE && shown <= MAX_ACTIVE
      ensures fresh(temp) && temp.Length == MAX_ACTIVE && kept <= shown
      ensures temp[..kept] == KeptDevices(Known(), devices[..shown])
    {
      hide KeptDevices;
      temp, kept := new Device[MAX_ACTIVE](_ => ZERO_DEVICE), 0;
      var i := 0;
      ghost var learned, all := Known(), devices[..shown];
      ghost var goal := KeptDevices(learned, all);
      assert all[0..] == all;
      while i < shown
        invariant i <= shown && kept <= i
        invariant goal == temp[..kept] + KeptDevices(learned, all[i..])
        invariant devices[..shown] == all && Known() == learned
      {
        var device := devices[i];
        KeptDevicesStep(learned, device, all[i+1..]);
        assert all[i..] == [device] + all[i+1..];
        var known := IsKnown(device.gpuId);
        if known {
          ghost var before := temp[..kept];
          temp[kept] := device;
          kept := kept + 1;
          assert temp[..kept] == before + [device];
        }
        i := i + 1;
      }
      NoKeptDevices(learned, all[i..]);
    }

    static lemma KeptDevicesStep(known: seq<U32>, device: Device, rest: seq<Device>)
      ensures KeptDevices(known, [device] + rest) ==
              (if device.gpuId in known then [device] else []) + KeptDevices(known, rest)
    {
      assert ([device] + rest)[1..] == rest;
    }

    static lemma NoKeptDevices(known: seq<U32>, none: seq<Device>)
      requires none == []
      ensures KeptDevices(known, none) == []
    {
    }

    /** The counted entries are clamped to the array, the kept ones copied to the front, the
        rest zeroed. */
    method FilterActiveDevices(numDevices: U32, devices: array<Device>) returns (filtered: bool, newCount: U32)
      requires Valid() && devices.Length == MAX_ACTIVE
      modifies devices
      ensures filtered <==> Known() != []
      ensures filtered ==> devices[..] == FilterDevices(Known(), numDevices, old(devices[..])) &&
                           newCount == |KeptDevices(Known(), Shown(numDevices, old(devices[..])))|
      ensures !filtered ==> devices[..] == old(devices[..]) && newCount == numDevices
    {
      if count == 0 {
        return false, numDevices;
      }
      var shown := if numDevices > MAX_ACTIVE then MAX_ACTIVE else numDevices;
      assert Shown(numDevices, devices[..]) == devices[..shown];
      var temp, kept := CollectDevices(devices, shown);
      ghost var goal := temp[..kept];
      forall k | 0 <= k < devices.Length {
        devices[k] := if k < kept then temp[k] else ZERO_DEVICE;
      }
      assert devices[..] == goal + seq(devices.Length - kept, _ => ZERO_DEVICE);
      filtered, newCount := true, kept;
    }

    // ----- the replies

    method CardInfoReply(cfg: Config, result: int, cards: array<Card>)
      requires Valid() && cards.Length == MAX_CARDS
      modifies this, ids, cards
      ensures Valid() && Known() == Learned(cfg, old(Known()), result, CardInfo(old(cards[..])))
      ensures CardInfo(cards[..]) == Rewritten(cfg, old(Known()), result, CardInfo(old(cards[..])))
    {
      if result != 0 {
        return;
      }
      RecordCards(cfg.allowed, cards);
      if cfg.gpuVideo && cfg.gpuIoctl {
        FilterCards(cfg.allowed, cards);
      }
    }

    method AttachedReply(cfg: Config, result: int, rm: Header, gpuIds: array<U32>)
      requires Valid() && gpuIds.Length == MAX_ATTACHED && gpuIds != ids
      modifies gpuIds
      ensures Attached(rm, gpuIds[..]) == Rewritten(cfg, Known(), result, Attached(rm, old(gpuIds[..])))
    {
      if Enabled(cfg, result, rm) && rm.paramsSize >= ATTACHED_SIZE {
        var filtered, kept := FilterIdArray(gpuIds);
      }
    }

    method ActiveReply(cfg: Config, result: int, rm: Header, numDevices: U32, devices: array<Device>)
      returns (newCount: U32)
      requires Valid() && devices.Length == MAX_ACTIVE
      modifies devices
      ensures Active(rm, newCount, devices[..]) ==
              Rewritten(cfg, Known(), result, Active(rm, numDevices, old(devices[..])))
    {
      newCount := numDevices;
      if Enabled(cfg, result, rm) && rm.paramsSize >= ACTIVE_SIZE {
        var filtered;
        filtered, newCount := FilterActiveDevices(numDevices, devices);
      }
    }
  }
}
