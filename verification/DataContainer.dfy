/** `data_container`: bytes shared between containers through a common counter. */
module DataContainer {

  newtype Byte = x: int | 0 <= x < 256

  // The digest is taken as it comes.
  type Hash = seq<Byte> -> seq<Byte>

  const SHA1_CHUNK_SIZE := 524288
  const SMALL_DATA_SIZE := 1048576
  const UINT_RANGE := 0x1_0000_0000

  // ---------------------------------------------------------------- signing

  // The number of whole chunks is kept in 32 bits.
  function ChunksSigned(size: nat): nat {
    (size / SHA1_CHUNK_SIZE) % UINT_RANGE
  }

  // The bytes that reach the digest.
  function SignedPart(data: seq<Byte>): (part: seq<Byte>)
    ensures part <= data
  {
    ChunksFit(|data|);
    data[..ChunksSigned(|data|) * SHA1_CHUNK_SIZE + |data| % SHA1_CHUNK_SIZE]
  }

  lemma ChunksFit(size: nat)
    ensures ChunksSigned(size) <= size / SHA1_CHUNK_SIZE
    ensures ChunksSigned(size) * SHA1_CHUNK_SIZE + size % SHA1_CHUNK_SIZE <= size
  {
  }

  // All bytes reach it exactly when the number of chunks fits the counter.
  lemma SignedPartIsAll(data: seq<Byte>)
    ensures SignedPart(data) == data <==> |data| / SHA1_CHUNK_SIZE < UINT_RANGE
  {
    var chunks := |data| / SHA1_CHUNK_SIZE;
    assert |data| == chunks * SHA1_CHUNK_SIZE + |data| % SHA1_CHUNK_SIZE;
    if chunks < UINT_RANGE {
      assert ChunksSigned(|data|) == chunks;
    } else {
      assert ChunksSigned(|data|) < chunks;
      assert |SignedPart(data)| < |data|;
    }
  }

  method SignData(sha: Hash, data: seq<Byte>) returns (signature: seq<Byte>)
    ensures signature == sha(SignedPart(data))
  {
    var context: seq<Byte> := [];
    var fullChunksCount := (|data| / SHA1_CHUNK_SIZE) % UINT_RANGE;
    ChunksFit(|data|);
    var offset := 0;
    for i := 0 to fullChunksCount
      invariant offset == i * SHA1_CHUNK_SIZE && offset <= |data|
      invariant context == data[..offset]
    {
      assert (i + 1) * SHA1_CHUNK_SIZE <= fullChunksCount * SHA1_CHUNK_SIZE;
      assert data[..offset + SHA1_CHUNK_SIZE] == data[..offset] + data[offset..offset + SHA1_CHUNK_SIZE];
      context := context + data[offset..offset + SHA1_CHUNK_SIZE];
      offset := offset + SHA1_CHUNK_SIZE;
    }
    var remainder := if |data| < SHA1_CHUNK_SIZE then |data| else |data| % SHA1_CHUNK_SIZE;
    if remainder != 0 {
      assert data[..offset + remainder] == data[..offset] + data[offset..offset + remainder];
      context := context + data[offset..offset + remainder];
    }
    signature := sha(context);
  }

  // ---------------------------------------------------------------- sharing

  // A block of memory holding bytes, until it is deleted.
  class Buffer {
    const bytes: seq<Byte>
    ghost const owner: Counter
    var freed: bool

    constructor (data: seq<Byte>, ghost counter: Counter)
      ensures bytes == data && owner == counter && !freed
    {
      bytes, owner := data, counter;
      freed := false;
    }

    // Deleting twice is not allowed.
    method Delete()
      requires !freed
      modifies this
      ensures freed
    {
      freed := true;
    }
  }

  // A counter, with the containers that refer to it and the buffer they share.
  class Counter {
    var count: nat
    ghost var holders: set<DataContainer>
    ghost var buffer: Buffer?

    constructor ()
      ensures count == 0 && holders == {} && buffer == null
    {
      count := 0;
      holders, buffer := {}, null;
    }

    method Acquire(ghost c: DataContainer)
      requires Kept(this) && buffer != null && holders != {} && c.counter == this && c !in holders
      modifies this
      ensures Kept(this) && holders == old(holders) + {c} && buffer == old(buffer) && count == old(count) + 1
    {
      count := count + 1;
      holders := holders + {c};
    }
  }

  // All containers that exist, and all counters and buffers there have ever been.
  class Pool {
    const sha: Hash
    ghost var live: set<DataContainer>
    ghost var counters: set<Counter>
    ghost var buffers: set<Buffer>

    constructor (hash: Hash)
      ensures Valid() && live == {} && counters == {} && buffers == {} && sha == hash
    {
      sha := hash;
      live, counters, buffers := {}, {}, {};
    }

    ghost predicate Valid()
      reads this, live, counters, buffers
    {
      AllFormed() && AllKept() && AllOwned()
    }

    ghost predicate AllFormed()
      reads this, live, counters
    {
      forall c :: c in live ==> c.counter in counters && c.Formed(sha)
    }

    ghost predicate AllKept()
      reads this, live, counters, buffers
    {
      forall k :: k in counters ==>
        k.holders <= live && (k.buffer != null ==> k.buffer in buffers && k.buffer.owner == k) && Kept(k)
    }

    ghost predicate AllOwned()
      reads this, counters, buffers
    {
      forall b :: b in buffers ==> b.owner in counters && b.owner.buffer == b
    }

    // One more container on a counter in use.
    method Share(c: DataContainer)
      requires Valid() && c !in live && c.counter in counters && c.counter.buffer != null && c.counter.holders != {}
      requires c.data == c.counter.buffer && c.size == |c.Bytes()| > 0
      requires c.size > SMALL_DATA_SIZE ==> c.signed && c.signature == sha(SignedPart(c.Bytes()))
      modifies this`live, c.counter
      ensures Valid() && live == old(live) + {c}
    {
      hide DataContainer.Formed, AllFormed, AllKept, AllOwned, SignedPart, Kept;
      KeptBefore(c.counter);
      c.counter.Acquire(c);
      live := live + {c};
      NowFormed(c, sha);
      FormedAfterShare(c);
      KeptAfterShare(c);
      OwnedAfter();
    }

    twostate lemma FormedAfterShare(c: DataContainer)
      requires old(AllFormed()) && live == old(live) + {c} && counters == old(counters)
      requires c.Formed(sha) && c.counter in counters
      requires forall d :: d in old(live) ==>
        unchanged(d) && old(d.counter.holders) <= d.counter.holders && d.counter.buffer == old(d.counter.buffer)
      ensures AllFormed()
    {
    }

    // What swapping two containers does to them and their counters.
    twostate predicate Swapped(c: DataContainer, d: DataContainer)
      reads c, d, c.counter, d.counter
    {
      && c.data == old(d.data) && c.size == old(d.size) && c.signed == old(d.signed)
      && c.signature == old(d.signature) && c.counter == old(d.counter)
      && d.data == old(c.data) && d.size == old(c.size) && d.signed == old(c.signed)
      && d.signature == old(c.signature) && d.counter == old(c.counter)
      && c.counter.count == old(d.counter.count) && c.counter.buffer == old(d.counter.buffer)
      && d.counter.count == old(c.counter.count) && d.counter.buffer == old(c.counter.buffer)
      && if c.counter == d.counter then c.counter.holders == old(c.counter.holders)
         else
           && c.counter.holders == old(d.counter.holders) - {d} + {c}
           && d.counter.holders == old(c.counter.holders) - {c} + {d}
    }

    twostate predicate OthersUntouched(c: DataContainer, d: DataContainer)
      reads this, c, d, live, counters, buffers
    {
      && live == old(live) && counters == old(counters) && buffers == old(buffers)
      && (forall o :: o in live && o != c && o != d ==> unchanged(o))
      && (forall k :: k in counters && k != c.counter && k != d.counter ==> unchanged(k))
      && (forall b :: b in buffers ==> unchanged(b))
    }

    twostate lemma FormedAfterSwap(pair: (DataContainer, DataContainer))
      requires old(AllFormed()) && pair.0 in live && pair.1 in live
      requires Swapped(pair.0, pair.1) && OthersUntouched(pair.0, pair.1)
      ensures AllFormed()
    {
      hide SignedPart;
    }

    twostate lemma KeptAfterSwap(pair: (DataContainer, DataContainer))
      requires old(Valid()) && pair.0 in live && pair.1 in live
      requires Swapped(pair.0, pair.1) && OthersUntouched(pair.0, pair.1)
      ensures AllKept()
    {
      hide Kept, AllFormed, AllKept, AllOwned;
      var (c, d) := pair;
      forall k | k in counters
        ensures k.holders <= live && (k.buffer != null ==> k.buffer in buffers && k.buffer.owner == k) && Kept(k)
      {
        OldKept(k);
        ghost var was := old(k.holders);
        if c.counter != d.counter && k == c.counter {
          Replacing(was, d, c);
        } else if c.counter != d.counter && k == d.counter {
          Replacing(was, c, d);
        }
        forall h | h in k.holders ensures h.counter == k {
          if h != c && h != d {
            assert h in was && unchanged(h);
          }
        }
        KeptMoved(k);
      }
      AllKeptMeans();
    }

    lemma AllKeptMeans()
      requires forall k :: k in counters ==>
        k.holders <= live && (k.buffer != null ==> k.buffer in buffers && k.buffer.owner == k) && Kept(k)
      ensures AllKept()
    {
    }

    twostate lemma OldKept(k: Counter)
      requires old(Valid()) && k in old(counters)
      ensures old(Kept(k)) && old(k.holders) <= old(live)
      ensures old(k.buffer) != null ==> old(k.buffer) in old(buffers) && old(k.buffer).owner == k
      ensures forall h :: h in old(live) ==> (old(h.counter) == k <==> h in old(k.holders))
    {
    }

    lemma KeptBefore(k: Counter)
      requires AllKept() && k in counters
      ensures Kept(k) && k.holders <= live
    {
    }

    twostate lemma KeptAfterShare(c: DataContainer)
      requires old(AllKept()) && live == old(live) + {c} && counters == old(counters) && buffers == old(buffers)
      requires c.counter.holders == old(c.counter.holders) + {c} && c.counter.buffer == old(c.counter.buffer)
      requires Kept(c.counter)
      requires forall k :: k in counters && k != c.counter ==> unchanged(k)
      requires forall d :: d in live ==> unchanged(d)
      requires forall b :: b in buffers ==> unchanged(b)
      ensures AllKept()
    {
    }

    twostate lemma OwnedAfter()
      requires old(AllOwned()) && counters == old(counters) && buffers == old(buffers)
      requires forall k :: k in counters ==> k.buffer == old(k.buffer)
      ensures AllOwned()
    {
    }

    // The counter of a container is the number of containers on it; zero means empty.
    lemma Counted(c: DataContainer)
      requires Valid() && c in live
      ensures c.counter.count == 0 <==> c.data == null
      ensures c.data != null ==> c.counter.count == |set d | d in live && d.counter == c.counter|
      ensures c.data != null ==> !c.data.freed
    {
      var k := c.counter;
      assert Kept(k);
      assert (set d | d in live && d.counter == k) == k.holders by {
        forall d | d in live && d.counter == k ensures d in k.holders {
        }
      }
    }

    // A buffer has been deleted exactly when no container refers to it any more.
    lemma FreedWhenUnreferenced(b: Buffer)
      requires Valid() && b in buffers
      ensures b.freed <==> forall c :: c in live ==> c.data != b
    {
      var k := b.owner;
      assert Kept(k);
      if k.holders != {} {
        var h :| h in k.holders;
        assert h in live && h.data == b;
      }
    }

    // A container lets go of its counter; the last one takes the buffer with it.
    method Leave(c: DataContainer)
      requires Valid() && c in live
      modifies this`live, c.counter, if c.data == null then {} else {c.data}
      ensures Valid() && live == old(live) - {c} && c !in c.counter.holders
    {
      hide Kept;
      HeldByOwnCounter(c);
      live := live - {c};
      c.Release();
    }

    lemma Holding(c: DataContainer)
      requires Valid() && c in live
      ensures c in c.counter.holders && Kept(c.counter)
      ensures c.data != null ==> c.data in buffers
    {
    }

    lemma HeldByOwnCounter(c: DataContainer)
      requires Valid()
      ensures forall k :: k in counters && c in k.holders ==> c.counter == k
    {
    }

    // A container with a counter and a buffer of its own comes into being.
    ghost method Join(c: DataContainer)
      requires Valid() && c !in live && c.counter !in counters
      requires Kept(c.counter) && c.Formed(sha) && c.counter.holders == {c}
      requires c.data != null ==> c.data.owner == c.counter && c.data !in buffers
      modifies this
      ensures Valid() && live == old(live) + {c} && counters == old(counters) + {c.counter}
      ensures buffers == old(buffers) + (if c.data == null then {} else {c.data})
    {
      hide Kept;
      live, counters := live + {c}, counters + {c.counter};
      if c.data != null {
        buffers := buffers + {c.data};
      }
    }
  }

  // The counter counts its holders, and its buffer lives as long as it has any.
  ghost predicate Kept(k: Counter)
    reads k, k.holders, k.buffer
  {
    && (forall h :: h in k.holders ==> h.counter == k)
    && if k.buffer == null then k.count == 0 else k.count == |k.holders| && (k.buffer.freed <==> k.holders == {})
  }

  class DataContainer {
    var data: Buffer?
    var size: nat
    var signed: bool
    var signature: seq<Byte>
    var counter: Counter

    function Bytes(): seq<Byte>
      reads this
    {
      if data == null then [] else data.bytes
    }

    ghost predicate Formed(sha: Hash)
      reads this, counter
    {
      && this in counter.holders && data == counter.buffer && size == |Bytes()|
      && (data != null ==> size > 0)
      && (size > SMALL_DATA_SIZE ==> signed && signature == sha(SignedPart(Bytes())))
    }

    method Init()
      modifies this
      ensures fresh(counter) && data == null && counter.buffer == null && counter.holders == {this} && Kept(counter)
      ensures forall sha :: Formed(sha)
    {
      signed, signature := false, [];
      counter := new Counter();
      counter.holders := {this};
      data, size := null, 0;
    }

    // Without a buffer or without bytes the container is empty.
    method InitWithData(sha: Hash, present: bool, bytes: seq<Byte>)
      modifies this
      ensures fresh(counter) && Kept(counter) && Formed(sha) && counter.holders == {this}
      ensures Bytes() == if present then bytes else []
      ensures data != null ==> fresh(data) && data.owner == counter
    {
      hide SignedPart;
      Init();
      if !present || bytes == [] {
        return;
      }
      data := new Buffer(bytes, counter);
      counter.buffer := data;
      counter.count := counter.count + 1;
      size := |bytes|;
      if size <= SMALL_DATA_SIZE {
        return;
      }
      signature := SignData(sha, data.bytes);
      signed := true;
    }

    method Release()
      requires Kept(counter) && this in counter.holders && data == counter.buffer
      requires data != null ==> data.owner == counter
      modifies counter, data
      ensures Kept(counter) && counter.holders == old(counter.holders) - {this} && counter.buffer == old(counter.buffer)
    {
      ghost var holders := counter.holders;
      counter.holders := counter.holders - {this};
      if counter.count == 0 {
        return;
      }
      counter.count := counter.count - 1;
      if data != null && counter.count == 0 {
        data.Delete();
      }
    }

    constructor Empty(pool: Pool)
      requires pool.Valid()
      modifies pool
      ensures pool.Valid() && fresh(pool.counters - old(pool.counters))
      ensures pool.live == old(pool.live) + {this} && pool.buffers == old(pool.buffers) && Bytes() == []
    {
      hide Kept, Formed;
      data, size, signed, signature := null, 0, false, [];
      counter := new Counter();
      new;
      Init();
      pool.Join(this);
    }

    constructor (pool: Pool, present: bool, bytes: seq<Byte>)
      requires pool.Valid()
      modifies pool
      ensures pool.Valid() && fresh(pool.counters - old(pool.counters)) && fresh(pool.buffers - old(pool.buffers))
      ensures pool.live == old(pool.live) + {this} && Bytes() == if present then bytes else []
    {
      hide Kept, Formed;
      data, size, signed, signature := null, 0, false, [];
      counter := new Counter();
      new;
      InitWithData(pool.sha, present, bytes);
      pool.Join(this);
    }

    // A copy shares the bytes. Of an unsigned container the copy leaves its own mark and
    // digest unset.
    constructor Copy(pool: Pool, dc: DataContainer)
      requires pool.Valid() && dc in pool.live
      modifies pool, dc.counter
      ensures pool.Valid() && fresh(pool.counters - old(pool.counters))
      ensures pool.live == old(pool.live) + {this} && pool.buffers == old(pool.buffers)
      ensures Bytes() == dc.Bytes() && data == dc.data
    {
      hide Kept;
      data, size, signed, signature := dc.data, dc.size, false, [];
      counter := dc.counter;
      if dc.size != 0 {
        if dc.signed {
          signature := dc.signature;
          signed := dc.signed;
        } else {
          signature, signed := *, *;
        }
      }
      new;
      if dc.size == 0 {
        Init();
        pool.Join(this);
      } else {
        pool.Share(this);
      }
    }

    // Small containers are compared byte by byte, big ones by their digests.
    method Equals(rhs: DataContainer, pool: Pool) returns (same: bool)
      requires pool.Valid() && this in pool.live && rhs in pool.live
      ensures size <= SMALL_DATA_SIZE ==> (same <==> Bytes() == rhs.Bytes())
      ensures size > SMALL_DATA_SIZE ==>
        (same <==> |Bytes()| == |rhs.Bytes()| && pool.sha(SignedPart(Bytes())) == pool.sha(SignedPart(rhs.Bytes())))
      ensures Bytes() == rhs.Bytes() ==> same
    {
      hide Kept, SignedPart;
      if size != rhs.size {
        return false;
      }
      if size == 0 && rhs.size == 0 {
        return true;
      }
      if size <= SMALL_DATA_SIZE {
        return data.bytes == rhs.data.bytes;
      }
      same := signature == rhs.signature;
    }

    method Clear(pool: Pool)
      requires pool.Valid() && this in pool.live
      modifies pool, this, counter, if data == null then {} else {data}
      ensures pool.Valid() && fresh(pool.counters - old(pool.counters))
      ensures pool.live == old(pool.live) && pool.buffers == old(pool.buffers) && Bytes() == []
    {
      hide Kept;
      if counter.count == 0 {
        pool.Counted(this);
        return;
      }
      pool.Leave(this);
      Init();
      pool.Join(this);
    }

    method Destroy(pool: Pool)
      requires pool.Valid() && this in pool.live
      modifies pool, counter, if data == null then {} else {data}
      ensures pool.Valid() && pool.live == old(pool.live) - {this}
      ensures pool.counters == old(pool.counters) && pool.buffers == old(pool.buffers)
      ensures data != null ==> (data.freed <==> forall c :: c in pool.live ==> c.data != data)
    {
      pool.Holding(this);
      ghost var mine := data;
      pool.Leave(this);
      if mine != null {
        pool.FreedWhenUnreferenced(mine);
      }
    }

    method Swap(other: DataContainer, pool: Pool)
      requires pool.Valid() && this in pool.live && other in pool.live
      modifies this, other, counter, other.counter
      ensures pool.Valid()
      ensures data == old(other.data) && other.data == old(data)
      ensures counter == old(other.counter) && other.counter == old(counter)
    {
      hide Kept, Formed;
      SwapFields(other);
      pool.FormedAfterSwap((this, other));
      pool.KeptAfterSwap((this, other));
      pool.OwnedAfter();
    }

    method SwapFields(other: DataContainer)
      modifies this, other, counter, other.counter
      ensures data == old(other.data) && other.data == old(data)
      ensures size == old(other.size) && other.size == old(size)
      ensures signed == old(other.signed) && other.signed == old(signed)
      ensures signature == old(other.signature) && other.signature == old(signature)
      ensures counter == old(other.counter) && other.counter == old(counter)
      ensures counter.count == old(other.counter.count) && other.counter.count == old(counter.count)
      ensures counter.buffer == old(other.counter.buffer) && other.counter.buffer == old(counter.buffer)
      ensures if counter == other.counter then counter.holders == old(counter.holders) else
        && counter.holders == old(other.counter.holders) - {other} + {this}
        && other.counter.holders == old(counter.holders) - {this} + {other}
    {
      data, other.data := other.data, data;
      size, other.size := other.size, size;
      signed, other.signed := other.signed, signed;
      signature, other.signature := other.signature, signature;
      counter, other.counter := other.counter, counter;
      if counter != other.counter {
        counter.holders := counter.holders - {other} + {this};
        other.counter.holders := other.counter.holders - {this} + {other};
      }
    }

    method Assign(rhs: DataContainer, pool: Pool)
      requires pool.Valid() && this in pool.live && rhs in pool.live
      modifies pool, this, counter, rhs.counter, if data == null then {} else {data}
      ensures pool.Valid() && fresh(pool.counters - old(pool.counters))
      ensures pool.live == old(pool.live) && pool.buffers == old(pool.buffers)
      ensures Bytes() == old(rhs.Bytes()) && data == old(rhs.data)
      ensures forall c :: c in pool.live && c != this ==> c.data == old(c.data)
    {
      hide Kept;
      var temp := new DataContainer.Copy(pool, rhs);
      temp.Swap(this, pool);
      temp.Destroy(pool);
    }
  }

  lemma NowFormed(c: DataContainer, sha: Hash)
    requires c in c.counter.holders && c.data == c.counter.buffer && c.size == |c.Bytes()| > 0
    requires c.size > SMALL_DATA_SIZE ==> c.signed && c.signature == sha(SignedPart(c.Bytes()))
    ensures c.Formed(sha)
  {
  }

  twostate lemma KeptMoved(k: Counter)
    requires old(Kept(k)) && |k.holders| == |old(k.holders)| && k.count == old(k.count) && k.buffer == old(k.buffer)
    requires k.buffer != null ==> k.buffer.freed == old(k.buffer.freed)
    requires forall h :: h in k.holders ==> h.counter == k
    ensures Kept(k)
  {
  }

  lemma Replacing<T>(s: set<T>, a: T, b: T)
    requires a in s && b !in s
    ensures |s - {a} + {b}| == |s|
  {
  }
}
