/**
 The cache of encoded reference voices (pkg/ttsruntime/preload.go): a small memory cache in front of
 one file for each voice.
 */
module PreloadCache {
  import opened Options
  import opened Recency
  import opened Sequences

  type Codes = seq<seq<int>>

  const VERSION := 4

  datatype PreloadData = PreloadData(version: int, id: Key, codes: Codes, text: string, audioPath: string)

  /** A cache file: one that can be decoded, or not. */
  datatype File = Readable(data: PreloadData) | Broken

  /** What is left of memory is as it was, but for one voice. */
  ghost predicate OthersStay(cache: map<Key, PreloadData>, before: map<Key, PreloadData>, id: Key) {
    forall x | x in cache && x != id :: x in before && cache[x] == before[x]
  }

  predicate Usable(f: File) {
    f.Readable? && f.data.version == VERSION
  }

  /** How saving a file ends: done, without a file, or with a file that cannot be decoded. */
  datatype SaveOutcome = Saved | NotCreated | Truncated

  /** Where memory and disk both know a voice, they know the same codes. */
  ghost predicate Agree(cache: map<Key, PreloadData>, disk: map<Key, File>) {
    forall id | id in cache && id in disk && Usable(disk[id]) :: cache[id].codes == disk[id].data.codes
  }

  ghost predicate Current(cache: map<Key, PreloadData>) {
    forall id | id in cache :: cache[id].version == VERSION
  }

  /** The codes that a lookup of a voice gives: those in memory, or else those of a usable file. */
  function Known(cache: map<Key, PreloadData>, disk: map<Key, File>, id: Key): Option<Codes> {
    if id in cache then Some(cache[id].codes)
    else if id in disk && Usable(disk[id]) then Some(disk[id].data.codes)
    else None
  }

  /** Which of memory and disk is asked first makes no difference. */
  lemma DiskFirstIsTheSame(cache: map<Key, PreloadData>, disk: map<Key, File>, id: Key)
    requires Agree(cache, disk)
    ensures Known(cache, disk, id) ==
      if id in disk && Usable(disk[id]) then Some(disk[id].data.codes)
      else if id in cache then Some(cache[id].codes) else None
  {
  }

  /** The cache holds the last `max` voices by last touch, and the access order lists them in that order. */
  ghost predicate HoldsLast(cache: map<Key, PreloadData>, order: seq<Key>, touches: seq<Key>, max: nat) {
    max > 0 && order == LastN(Recent(touches), max) && cache.Keys == Elements(order)
  }

  /** The access order lists voices by their last touch in the whole history. */
  ghost predicate InHistory(order: seq<Key>, touches: seq<Key>) {
    ByLastTouch(order, touches) && forall x | x in order :: x in touches
  }

  class Cache {
    var cache: map<Key, PreloadData>
    const maxInMemory: nat
    var accessOrder: seq<Key>
    var disk: map<Key, File>
    /** Every hit of Get and every insertion, and the part of that history that removals have left. */
    ghost var touches: seq<Key>
    ghost var live: seq<Key>

    ghost predicate Ordered()
      reads this
    {
      HoldsLast(cache, accessOrder, live, maxInMemory) && InHistory(accessOrder, touches)
    }

    ghost predicate Valid()
      reads this
    {
      Ordered() && Agree(cache, disk) && Current(cache)
    }

    /** The cache directory may hold files of earlier processes. */
    constructor (maxInMemory: int, disk: map<Key, File>)
      ensures Valid() && cache == map[] && touches == [] && this.disk == disk
      ensures this.maxInMemory == if maxInMemory <= 0 then 2 else maxInMemory
    {
      this.maxInMemory := if maxInMemory <= 0 then 2 else maxInMemory;
      cache, accessOrder, touches, live := map[], [], [], [];
      this.disk := disk;
    }

    /** Take a key out of the access order, if it is there. */
    method RemoveFromOrder(id: Key)
      requires NoRepeats(accessOrder)
      modifies this`accessOrder
      ensures accessOrder == Without(old(accessOrder), id)
    {
      var i := 0;
      while i < |accessOrder|
        invariant 0 <= i <= |accessOrder| && accessOrder == old(accessOrder)
        invariant id !in accessOrder[..i]
      {
        if accessOrder[i] == id {
          WithoutAt(accessOrder, i);
          accessOrder := accessOrder[..i] + accessOrder[i + 1..];
          return;
        }
        i := i + 1;
      }
      WithoutAbsent(accessOrder, id);
    }

    method UpdateAccessOrder(id: Key)
      requires NoRepeats(accessOrder)
      modifies this`accessOrder
      ensures accessOrder == Without(old(accessOrder), id) + [id]
    {
      RemoveFromOrder(id);
      accessOrder := accessOrder + [id];
    }

    lemma OrderFacts()
      requires Ordered()
      ensures maxInMemory > 0 && NoRepeats(accessOrder) && |accessOrder| <= maxInMemory && |cache| == |accessOrder|
    {
      RecentIsSet(live);
      LastNFacts(Recent(live), maxInMemory);
      SizeOfElements(accessOrder);
      assert |cache| == |cache.Keys|;
    }

    /** Put data into memory; when memory is full, the voice touched longest ago makes room. */
    method AddToMemoryCache(id: Key, data: PreloadData)
      requires Ordered()
      modifies this`cache, this`accessOrder, this`touches, this`live
      ensures Ordered() && touches == old(touches) + [id]
      ensures cache == (if id !in old(cache) && |old(cache)| >= maxInMemory
                        then old(cache) - {old(accessOrder)[0]} else old(cache))[id := data]
      ensures forall x | x in old(cache) && x !in cache ::
        forall y | y in cache && y != id :: LastTouch(old(touches), x) < LastTouch(old(touches), y)
    {
      hide Recent, LastN, Without, InHistory, LastTouch;
      OrderFacts();
      touches, live := touches + [id], live + [id];
      if id in cache {
        TouchHeld(old(live), maxInMemory, id);
        HistoryTouched(accessOrder, old(touches), id);
        cache := cache[id := data];
        UpdateAccessOrder(id);
        return;
      }
      TouchOther(old(live), maxInMemory, id);
      HistoryInserted(accessOrder, old(touches), id);
      if |accessOrder| > 0 {
        HistoryFront(accessOrder, old(touches));
      }
      if |cache| >= maxInMemory {
        if |accessOrder| > 0 {
          var evictID := accessOrder[0];
          cache := cache - {evictID};
          accessOrder := accessOrder[1..];
        }
      }
      cache := cache[id := data];
      accessOrder := accessOrder + [id];
    }

    /** Look a voice up: memory, then a usable file, which moves into memory. A file of no use is deleted. */
    method Get(id: Key) returns (result: Option<PreloadData>)
      requires Valid()
      modifies this
      ensures Valid()
      ensures (if result.Some? then Some(result.value.codes) else None) == Known(old(cache), old(disk), id)
      ensures result.Some? <==>
        id in old(cache) || (id in old(disk) && old(disk)[id].Readable? && old(disk)[id].data.version == 4)
      ensures result.Some? ==> id in cache && cache[id] == result.value && touches == old(touches) + [id]
      ensures result.Some? ==> result.value.version == 4 && OthersStay(cache, old(cache), id)
      ensures result.None? ==> cache == old(cache) && touches == old(touches) && disk == old(disk) - {id}
      ensures result.Some? ==> disk == old(disk)
    {
      hide Recent, LastN, Without, InHistory;
      OrderFacts();
      if id in cache {
        TouchHeld(live, maxInMemory, id);
        HistoryTouched(accessOrder, touches, id);
        touches, live := touches + [id], live + [id];
        UpdateAccessOrder(id);
        return Some(cache[id]);
      }
      if id in disk {
        if !Usable(disk[id]) {
          disk := disk - {id};
          return None;
        }
        var data := disk[id].data;
        AddToMemoryCache(id, data);
        return Some(data);
      }
      return None;
    }

    method SaveToDisk(id: Key, data: PreloadData, save: SaveOutcome)
      requires id !in disk
      modifies this`disk
      ensures disk == if save == NotCreated then old(disk)
                      else old(disk)[id := if save == Saved then Readable(data) else Broken]
    {
      match save {
        case Saved => disk := disk[id := Readable(data)];
        case NotCreated =>
        case Truncated => disk := disk[id := Broken];
      }
    }

    /** Keep a voice that has just been encoded, on disk if it can be saved, and in memory. */
    method Keep(id: Key, data: PreloadData, save: SaveOutcome)
      requires Valid() && id !in cache && id !in disk && data.version == VERSION
      modifies this
      ensures Valid() && id in cache && cache[id] == data && touches == old(touches) + [id]
      ensures OthersStay(cache, old(cache), id)
      ensures disk == if save == NotCreated then old(disk)
                      else old(disk)[id := if save == Saved then Readable(data) else Broken]
    {
      hide HoldsLast, InHistory, Agree, Current;
      OrderFacts();
      AgreeSaved(cache, disk, id, data, save);
      SaveToDisk(id, data, save);
      ghost var before := cache;
      AddToMemoryCache(id, data);
      assert before - {} == before;
      AgreeAdded(before, disk, id, data, if |before| >= maxInMemory then {old(accessOrder)[0]} else {});
    }

    /** Make sure a voice is known, encoding its audio if need be. Finding it counts as no touch. */
    method Preload(id: Key, audioPath: string, text: string, encoded: Option<Codes>, save: SaveOutcome) returns (ok: bool)
      requires Valid()
      modifies this
      ensures Valid()
      ensures ok <==> Known(old(cache), old(disk), id).Some? || encoded.Some?
      ensures Known(cache, disk, id) ==
        if Known(old(cache), old(disk), id).Some? then Known(old(cache), old(disk), id) else encoded
      ensures Known(old(cache), old(disk), id).Some? ==>
        cache == old(cache) && disk == old(disk) && touches == old(touches) && accessOrder == old(accessOrder)
      ensures Known(old(cache), old(disk), id).None? && ok ==>
        && id in cache && cache[id] == PreloadData(4, id, encoded.value, text, audioPath)
        && OthersStay(cache, old(cache), id) && touches == old(touches) + [id]
      ensures Known(old(cache), old(disk), id).None? && ok ==>
        disk == if save == NotCreated then old(disk) - {id}
                else old(disk)[id := if save == Saved then Readable(cache[id]) else Broken]
      ensures !ok ==> cache == old(cache) && touches == old(touches) && disk == old(disk) - {id}
    {
      hide HoldsLast, InHistory, Agree, Current;
      if id in cache {
        return true;
      }
      if id in disk {
        if Usable(disk[id]) {
          return true;
        }
        AgreeWithout(cache, disk, id);
        disk := disk - {id};
      }
      match encoded
      case None => return false;
      case Some(codes) =>
        Keep(id, PreloadData(VERSION, id, codes, text, audioPath), save);
        return true;
    }

    /** Forget one voice. What memory still holds keeps its order, that of last touches in the whole history. */
    method Remove(id: Key)
      requires Valid()
      modifies this
      ensures Valid()
      ensures cache == old(cache) - {id} && disk == old(disk) - {id}
      ensures accessOrder == Without(old(accessOrder), id) && touches == old(touches)
    {
      hide HoldsLast, Without, InHistory, Agree, Current;
      OrderFacts();
      RemovedHolds(cache, accessOrder, live, maxInMemory, id);
      AgreeRemoved(cache, disk, id);
      if id in cache {
        cache := cache - {id};
        RemoveFromOrder(id);
      } else {
        WithoutAbsent(accessOrder, id);
      }
      HistoryWithout(old(accessOrder), touches, id);
      live := accessOrder;
      disk := disk - {id};
    }

    method Clear()
      requires Valid()
      modifies this
      ensures Valid() && cache == map[] && disk == map[] && accessOrder == [] && touches == old(touches)
    {
      cache, accessOrder, disk, live := map[], [], map[], [];
    }
  }

  // ----- The access order and the whole history -----

  lemma LastTouchNext(touches: seq<Key>, id: Key, x: Key)
    ensures LastTouch(touches + [id], x) == if x == id then |touches| else LastTouch(touches, x)
  {
    assert (touches + [id])[..|touches|] == touches;
  }

  lemma HistoryWithout(order: seq<Key>, touches: seq<Key>, id: Key)
    requires InHistory(order, touches)
    ensures InHistory(Without(order, id), touches)
  {
    hide LastTouch;
    WithoutByLastTouch(order, touches, id);
  }

  /** The touched voice becomes the last one. */
  lemma HistoryTouched(order: seq<Key>, touches: seq<Key>, id: Key)
    requires InHistory(order, touches)
    ensures InHistory(Without(order, id) + [id], touches + [id])
  {
    HistoryWithout(order, touches, id);
    hide LastTouch;
    var s := Without(order, id);
    forall x ensures LastTouch(touches + [id], x) == if x == id then |touches| else LastTouch(touches, x) {
      LastTouchNext(touches, id, x);
    }
    forall i | 0 <= i < |s| ensures s[i] != id && LastTouch(touches, s[i]) < |touches| {
      assert s[i] in s;
    }
  }

  /** A voice that was not held becomes the last one, whether or not the first one makes room for it. */
  lemma HistoryInserted(order: seq<Key>, touches: seq<Key>, id: Key)
    requires InHistory(order, touches) && id !in order
    ensures InHistory(order + [id], touches + [id])
    ensures order != [] ==> InHistory(order[1..] + [id], touches + [id])
  {
    hide InHistory, LastTouch, Without;
    WithoutAbsent(order, id);
    HistoryTouched(order, touches, id);
    if order != [] {
      HistoryTail(order + [id], touches + [id]);
      assert (order + [id])[1..] == order[1..] + [id];
    }
  }

  lemma HistoryTail(order: seq<Key>, touches: seq<Key>)
    requires InHistory(order, touches) && order != []
    ensures InHistory(order[1..], touches)
  {
    hide LastTouch;
  }

  lemma HistoryFront(order: seq<Key>, touches: seq<Key>)
    requires InHistory(order, touches) && order != []
    ensures forall y | y in order && y != order[0] :: LastTouch(touches, order[0]) < LastTouch(touches, y)
  {
    hide LastTouch;
  }

  lemma AgreeWithout(cache: map<Key, PreloadData>, disk: map<Key, File>, id: Key)
    requires Agree(cache, disk)
    ensures Agree(cache, disk - {id})
  {
  }

  lemma AgreeSaved(cache: map<Key, PreloadData>, disk: map<Key, File>, id: Key, data: PreloadData, save: SaveOutcome)
    requires Agree(cache, disk) && id !in cache && id !in disk
    ensures var disk' := if save == NotCreated then disk
                         else disk[id := if save == Saved then Readable(data) else Broken];
      Agree(cache, disk') && (id in disk' && Usable(disk'[id]) ==> disk'[id].data == data)
  {
  }

  /** A voice joins memory, and others may leave it. */
  lemma AgreeAdded(cache: map<Key, PreloadData>, disk: map<Key, File>, id: Key, data: PreloadData, gone: set<Key>)
    requires Agree(cache, disk) && Current(cache) && data.version == VERSION
    requires id in disk && Usable(disk[id]) ==> disk[id].data.codes == data.codes
    ensures Agree((cache - gone)[id := data], disk) && Current((cache - gone)[id := data])
  {
  }

  lemma AgreeRemoved(cache: map<Key, PreloadData>, disk: map<Key, File>, id: Key)
    requires Agree(cache, disk) && Current(cache)
    ensures Agree(cache - {id}, disk - {id}) && Current(cache - {id})
    ensures id !in cache ==> cache - {id} == cache
  {
  }

  /** Without one voice, what is held are the last voices of the history that is left. */
  lemma RemovedHolds(cache: map<Key, PreloadData>, order: seq<Key>, live: seq<Key>, max: nat, id: Key)
    requires HoldsLast(cache, order, live, max) && NoRepeats(order) && |order| <= max
    ensures id in cache <==> id in order
    ensures HoldsLast(cache - {id}, Without(order, id), Without(order, id), max)
  {
    hide Recent, LastN, Without, NoRepeats;
    var rest := Without(order, id);
    WithoutNoRepeats(order, id);
    RecentOfDistinct(rest);
    LastNAll(rest, max);
    assert (cache - {id}).Keys == Elements(rest);
  }

  lemma LastNAll(s: seq<Key>, n: nat)
    requires |s| <= n
    ensures LastN(s, n) == s
  {
  }

  lemma {:induction false} SizeOfElements(s: seq<Key>)
    requires NoRepeats(s)
    ensures |Elements(s)| == |s|
  {
    if s != [] {
      var rest, last := s[..|s| - 1], s[|s| - 1];
      SizeOfElements(rest);
      assert last !in rest && s == rest + [last];
      assert Elements(s) == Elements(rest) + {last};
    }
  }

  /** The voice at the front of the order, the one that is evicted, was touched longest ago. */
  lemma EvictsLeastRecent(touches: seq<Key>, max: nat, order: seq<Key>, i: nat)
    requires order == LastN(Recent(touches), max) && 0 < i < |order|
    ensures order[0] in touches && LastTouch(touches, order[0]) < LastTouch(touches, order[i])
  {
    RecentIsByLastTouch(touches);
    RecentIsSet(touches);
    hide Recent, LastTouch, NoRepeats;
    assert order[0] in Recent(touches);
  }

  /** A voice that was touched but is not held has been followed by touches of `max` other voices. */
  lemma ForgottenIsOlder(touches: seq<Key>, max: nat, order: seq<Key>, x: Key, i: nat)
    requires order == LastN(Recent(touches), max) && x in touches && x !in order && i < |order|
    ensures |order| == max && LastTouch(touches, x) < LastTouch(touches, order[i])
  {
    var r := Recent(touches);
    RecentIsByLastTouch(touches);
    RecentIsSet(touches);
    LastNFacts(r, max);
    hide Recent, LastTouch, NoRepeats, LastN;
    BeforeLast(r, touches, |r| - |order|, x, i);
  }

  lemma BeforeLast(r: seq<Key>, touches: seq<Key>, cut: nat, x: Key, i: nat)
    requires ByLastTouch(r, touches) && cut + i < |r| && x in r && x !in r[cut..]
    ensures cut > 0 && LastTouch(touches, x) < LastTouch(touches, r[cut + i])
  {
    hide LastTouch;
    var k :| 0 <= k < |r| && r[k] == x;
    assert forall j | cut <= j < |r| :: r[cut..][j - cut] == r[j];
  }
}
