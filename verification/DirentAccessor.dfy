/** src/dirent_accessor.cpp: dirents by entry index, through a cache of the latest ones.

    The cache cannot be observed: whatever was asked before, and whatever other threads put in it
    between the two locked sections of a call, the answer is the one that reading the pointer and
    the dirent from the file again would give. */
module DirentAccessor {
  import opened Bytes
  import opened DirentFormat
  import opened LruCache

  datatype Answer = Success(dirent: Dirent) | OutOfRange | Unreadable(why: Read)

  function PointerAt(urlPtr: Str, idx: nat): nat
    requires 8 * idx + 8 <= |urlPtr|
  {
    FromLE(urlPtr[8 * idx..8 * idx + 8])
  }

  /** `getOffset` and `readDirent`, with no cache. */
  function Direct(file: Str, urlPtr: Str, idx: nat): Answer {
    if 8 * idx + 8 > |urlPtr| then OutOfRange
    else match ReadDirent(file, PointerAt(urlPtr, idx))
      case Found(d) => Success(d)
      case why => Unreadable(why)
  }

  ghost predicate Agrees(s: seq<Entry<nat, Dirent>>, file: Str, urlPtr: Str) {
    forall e :: e in s ==> Direct(file, urlPtr, e.key) == Success(e.value)
  }

  /** A locked section of `getDirent`: a look in the cache, or putting a dirent that was read. */
  ghost predicate Section(op: Op<nat, Dirent>, file: Str, urlPtr: Str) {
    op.Get? || (op.Put? && Direct(file, urlPtr, op.key) == Success(op.value))
  }

  lemma SectionAgrees(s: seq<Entry<nat, Dirent>>, cap: nat, op: Op<nat, Dirent>, file: Str, urlPtr: Str)
    requires Agrees(s, file, urlPtr) && Section(op, file, urlPtr)
    ensures var (t, answer) := Apply(s, cap, op);
            && Agrees(t, file, urlPtr)
            && (answer.Hit? ==> Direct(file, urlPtr, op.key) == Success(answer.value))
  {
    hide Direct, Apply;
    ApplyFrom(s, cap, op);
  }

  /** Every interleaving of the locked sections of any number of threads: a hit is what reading again gives. */
  lemma {:induction false} EveryHitIsDirect(s: seq<Entry<nat, Dirent>>, cap: nat, ops: seq<Op<nat, Dirent>>, file: Str, urlPtr: Str)
    requires Agrees(s, file, urlPtr)
    requires forall i :: 0 <= i < |ops| ==> Section(ops[i], file, urlPtr)
    ensures |Answers(s, cap, ops)| == |ops|
    ensures forall i :: 0 <= i < |ops| && Answers(s, cap, ops)[i].Hit? ==>
              Direct(file, urlPtr, ops[i].key) == Success(Answers(s, cap, ops)[i].value)
    decreases ops
  {
    if ops != [] {
      hide Direct, Agrees, Apply;
      SectionAgrees(s, cap, ops[0], file, urlPtr);
      var t := Apply(s, cap, ops[0]).0;
      EveryHitIsDirect(t, cap, ops[1..], file, urlPtr);
      forall i | 0 < i < |ops|
        ensures Answers(s, cap, ops)[i] == Answers(t, cap, ops[1..])[i - 1] && ops[i] == ops[1..][i - 1]
      {
      }
    }
  }

  class DirectDirentAccessor {
    const file: Str
    const urlPtr: Str
    const direntCount: nat
    const cache: LruCache<nat, Dirent>

    ghost predicate Valid()
      reads cache
    {
      && |urlPtr| == 8 * direntCount
      && cache.Valid() && Agrees(cache.Contents(), file, urlPtr)
    }

    constructor (file: Str, urlPtr: Str, direntCount: nat, cacheSize: nat)
      requires |urlPtr| == 8 * direntCount
      ensures Valid() && fresh(cache) && this.file == file && this.urlPtr == urlPtr
    {
      this.file, this.urlPtr, this.direntCount := file, urlPtr, direntCount;
      cache := new LruCache(cacheSize);
    }

    method GetOffset(idx: nat) returns (ok: bool, offset: nat)
      requires |urlPtr| == 8 * direntCount
      ensures ok == (8 * idx + 8 <= |urlPtr|)
      ensures ok ==> offset == PointerAt(urlPtr, idx)
    {
      if idx >= direntCount { return false, 0; }
      ok := true;
      offset := FromLittleEndian(urlPtr[8 * idx..8 * idx + 8]);
    }

    method GetDirent(idx: nat) returns (r: Answer)
      requires Valid()
      modifies cache
      ensures Valid() && r == Direct(file, urlPtr, idx)
    {
      hide ReadDirent, Agrees, Apply, Bijection, PointerAt;
      SectionAgrees(cache.Contents(), cache.maxSize, Op.Get(idx), file, urlPtr);
      var v := cache.Get(idx);
      if v.Hit? { return Success(v.value); }
      var ok, offset := GetOffset(idx);
      if !ok { return OutOfRange; }
      var dirent := ReadDirentLoop(file, offset);
      if !dirent.Found? { return Unreadable(dirent); }
      SectionAgrees(cache.Contents(), cache.maxSize, Op.Put(idx, dirent.d), file, urlPtr);
      cache.Put(idx, dirent.d);
      r := Success(dirent.d);
    }
  }

  /** `IndirectDirentAccessor`: the title index holds 4-byte entry numbers. */
  method GetDirectIndex(index: Str, direntCount: nat, idx: nat) returns (ok: bool, direct: nat)
    requires |index| == 4 * direntCount
    ensures ok == (idx < direntCount)
    ensures ok ==> direct == FromLE(index[4 * idx..4 * idx + 4]) && direct < TWO32
  {
    if idx >= direntCount { return false, 0; }
    ok := true;
    direct := FromLittleEndian(index[4 * idx..4 * idx + 4]);
    FromLEBound(index[4 * idx..4 * idx + 4]);
    Pow256Values();
  }

  method GetIndirect(direct: DirectDirentAccessor, index: Str, direntCount: nat, idx: nat) returns (r: Answer)
    requires direct.Valid() && |index| == 4 * direntCount
    modifies direct.cache
    ensures direct.Valid()
    ensures r == if idx < direntCount then Direct(direct.file, direct.urlPtr, FromLE(index[4 * idx..4 * idx + 4]))
                 else OutOfRange
  {
    var ok, i := GetDirectIndex(index, direntCount, idx);
    if !ok { return OutOfRange; }
    r := direct.GetDirent(i);
  }
}
