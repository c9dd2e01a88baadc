/** Patching a signed binary and re-hashing only the pages the patch touches
    (spikes/macho-resign/resign.py). */
module Resign {
  import opened Naturals
  import opened Quotients

  type Byte = n: nat | n < 256

  /** The fields of a CodeDirectory blob the re-signer uses. */
  datatype CodeDirectory = CodeDirectory(
    blobOffset: nat, hashOffset: nat, nCodeSlots: nat, codeLimit: nat,
    hashSize: nat, hashType: nat, pageSizeLog2: nat)

  /** The hash functions by type; what they compute is left open. */
  type Hash = (nat, seq<Byte>) -> seq<Byte>

  // ---- Page arithmetic ----

  function PageSize(cd: CodeDirectory): (size: nat)
    ensures size > 0
  {
    if cd.pageSizeLog2 == 0 then 4096 else Pow2(cd.pageSizeLog2)
  }

  function PageStart(cd: CodeDirectory, slot: nat): nat {
    slot * PageSize(cd)
  }

  function SlotOffset(cd: CodeDirectory, slot: nat): nat {
    cd.blobOffset + cd.hashOffset + slot * cd.hashSize
  }

  function PageEnd(cd: CodeDirectory, slot: nat): nat {
    Min(PageStart(cd, slot) + PageSize(cd), cd.codeLimit)
  }

  function PageOf(cd: CodeDirectory, p: nat): int {
    p / PageSize(cd)
  }

  /** The page of the slot overlaps `[start, start + length)`. */
  predicate Touches(cd: CodeDirectory, slot: nat, start: nat, length: nat) {
    length > 0 && PageStart(cd, slot) < start + length && start < PageStart(cd, slot) + PageSize(cd)
  }

  lemma TouchesByQuotient(cd: CodeDirectory, slot: nat, start: nat, length: nat)
    requires length > 0
    ensures Touches(cd, slot, start, length) <==>
            PageOf(cd, start) <= slot <= PageOf(cd, start + length - 1)
    ensures 0 <= PageOf(cd, start) <= PageOf(cd, start + length - 1)
  {
    var size := PageSize(cd);
    hide PageSize;
    AtLeast(start, size, slot + 1);
    AtLeast(start + length - 1, size, slot);
    AtLeast(start, size, 0);
    AtLeast(start, size, start / size);
    AtLeast(start + length - 1, size, start / size);
    assert (slot + 1) * size == slot * size + size;
  }

  // ---- Pages and slots, byte by byte ----

  /** `p` halved `m` times. */
  function Halved(p: nat, m: nat): nat {
    if m == 0 then p else Halved(p / 2, m - 1)
  }

  /** How often the number of a byte is halved to give its page: 12 times where the directory leaves
      the page size open. */
  function PageLog(cd: CodeDirectory): nat {
    if cd.pageSizeLog2 == 0 then 12 else cd.pageSizeLog2
  }

  lemma {:induction false} HalvedQuotient(p: nat, m: nat, k: nat)
    ensures Halved(p, m) == k <==> k * Pow2(m) <= p < k * Pow2(m) + Pow2(m)
    decreases m
  {
    if m > 0 {
      HalvedQuotient(p / 2, m - 1, k);
      var h := Pow2(m - 1);
      assert k * Pow2(m) == 2 * (k * h);
    }
  }

  lemma PageSizes(cd: CodeDirectory)
    ensures PageSize(cd) == Pow2(PageLog(cd))
    ensures cd.pageSizeLog2 == 0 || cd.pageSizeLog2 == 12 ==> PageSize(cd) == 4096
    ensures cd.pageSizeLog2 == 14 ==> PageSize(cd) == 16384
    ensures cd.pageSizeLog2 > 0 ==> PageSize(cd.(pageSizeLog2 := cd.pageSizeLog2 + 1)) == 2 * PageSize(cd)
  {
    assert Pow2(4) == 16 && Pow2(8) == 256 && Pow2(12) == 4096 && Pow2(14) == 16384;
  }

  /** The hash of slot `k` is over the bytes of the code whose number, halved so often, is `k`. */
  lemma PageOfByte(cd: CodeDirectory, k: nat, p: nat)
    requires p < cd.codeLimit
    ensures PageStart(cd, k) <= p < PageEnd(cd, k) <==> k == Halved(p, PageLog(cd))
  {
    hide PageSize;
    PageSizes(cd);
    HalvedQuotient(p, PageLog(cd), k);
  }

  /** A range touches the pages of its bytes. */
  lemma TouchesByBytes(cd: CodeDirectory, k: nat, start: nat, length: nat)
    ensures Touches(cd, k, start, length) <==> exists p: nat | start <= p < start + length :: Halved(p, PageLog(cd)) == k
  {
    hide PageSize;
    PageSizes(cd);
    if Touches(cd, k, start, length) {
      var p: nat := if start < PageStart(cd, k) then PageStart(cd, k) else start;
      HalvedQuotient(p, PageLog(cd), k);
    }
    if p: nat :| start <= p < start + length && Halved(p, PageLog(cd)) == k {
      HalvedQuotient(p, PageLog(cd), k);
    }
  }

  /** The slots whose pages overlap the range, in ascending order. */
  method PagesForRange(cd: CodeDirectory, start: nat, length: nat) returns (slots: seq<nat>)
    ensures forall i, j | 0 <= i < j < |slots| :: slots[i] < slots[j]
    ensures forall k: nat :: k in slots <==> k < cd.nCodeSlots && Touches(cd, k, start, length)
  {
    slots := [];
    if length <= 0 {
      return;
    }
    hide Touches, PageOf;
    var first := PageOf(cd, start);
    var last := PageOf(cd, start + length - 1);
    TouchesByQuotient(cd, 0, start, length);
    for p := first to last + 1
      invariant forall i, j | 0 <= i < j < |slots| :: slots[i] < slots[j]
      invariant forall i | 0 <= i < |slots| :: slots[i] < p
      invariant forall k: nat :: k in slots <==> k < cd.nCodeSlots && first <= k < p
    {
      ghost var was := slots;
      if p < cd.nCodeSlots {
        slots := slots + [p];
        assert forall k: nat :: k in slots <==> k in was || k == p;
      }
    }
    forall k: nat ensures Touches(cd, k, start, length) <==> first <= k <= last {
      TouchesByQuotient(cd, k, start, length);
    }
  }

  // ---- What a signed image is ----

  /** Hash tables lie in the file, beyond every `codeLimit`, pairwise disjoint, and every slot's
      page begins below its `codeLimit`. */
  predicate LaidOut(size: nat, cds: seq<CodeDirectory>) {
    && (forall i | 0 <= i < |cds| :: SlotOffset(cds[i], cds[i].nCodeSlots) <= size && cds[i].codeLimit <= size)
    && (forall i, j | 0 <= i < |cds| && 0 <= j < |cds| :: cds[j].codeLimit <= SlotOffset(cds[i], 0))
    && (forall i, j | 0 <= i < |cds| && 0 <= j < |cds| && i != j ::
          || SlotOffset(cds[i], cds[i].nCodeSlots) <= SlotOffset(cds[j], 0)
          || SlotOffset(cds[j], cds[j].nCodeSlots) <= SlotOffset(cds[i], 0))
    && (forall i, k: nat | 0 <= i < |cds| && k < cds[i].nCodeSlots :: PageStart(cds[i], k) < cds[i].codeLimit)
  }

  /** Every digest is at least as long as the slot it is cut down to. */
  ghost predicate LongEnough(cds: seq<CodeDirectory>, hash: Hash) {
    forall i, b: seq<Byte> | 0 <= i < |cds| :: |hash(cds[i].hashType, b)| >= cds[i].hashSize
  }

  predicate Known(cds: seq<CodeDirectory>, i: nat, k: nat) {
    i < |cds| && k < cds[i].nCodeSlots
  }

  predicate InSlot(cd: CodeDirectory, k: nat, p: nat) {
    SlotOffset(cd, k) <= p < SlotOffset(cd, k) + cd.hashSize
  }

  lemma SlotsInOrder(cd: CodeDirectory, j: nat, k: nat)
    requires j < k
    ensures SlotOffset(cd, j) + cd.hashSize <= SlotOffset(cd, k)
  {
    assert (j + 1) * cd.hashSize == j * cd.hashSize + cd.hashSize;
    assert (j + 1) * cd.hashSize <= k * cd.hashSize;
  }

  /** Every slot lies between the code and the end of the file. */
  lemma SlotInFile(size: nat, cds: seq<CodeDirectory>, i: nat, k: nat)
    requires LaidOut(size, cds) && Known(cds, i, k)
    ensures SlotOffset(cds[i], 0) <= SlotOffset(cds[i], k)
    ensures SlotOffset(cds[i], k) + cds[i].hashSize <= SlotOffset(cds[i], cds[i].nCodeSlots) <= size
    ensures forall j | 0 <= j < |cds| :: cds[j].codeLimit <= SlotOffset(cds[i], k)
    ensures PageStart(cds[i], k) < PageEnd(cds[i], k) <= cds[i].codeLimit <= size
  {
    hide SlotOffset, PageStart;
    SlotsInOrder(cds[i], k, cds[i].nCodeSlots);
    if k > 0 {
      SlotsInOrder(cds[i], 0, k);
    }
  }

  /** No byte belongs to two slots. */
  lemma SlotsApart(size: nat, cds: seq<CodeDirectory>, i: nat, k: nat, i': nat, k': nat, p: nat)
    requires LaidOut(size, cds) && Known(cds, i, k) && Known(cds, i', k')
    requires InSlot(cds[i], k, p) && InSlot(cds[i'], k', p)
    ensures i == i' && k == k'
  {
    hide SlotOffset, PageStart;
    SlotInFile(size, cds, i, k);
    SlotInFile(size, cds, i', k');
    if i == i' && k < k' {
      SlotsInOrder(cds[i], k, k');
    } else if i == i' && k > k' {
      SlotsInOrder(cds[i], k', k);
    }
  }

  /** The bytes a slot's hash is taken over. */
  function Page(data: seq<Byte>, cds: seq<CodeDirectory>, i: nat, k: nat): seq<Byte>
    requires LaidOut(|data|, cds) && Known(cds, i, k)
  {
    SlotInFile(|data|, cds, i, k);
    data[PageStart(cds[i], k)..PageEnd(cds[i], k)]
  }

  function Slot(data: seq<Byte>, cds: seq<CodeDirectory>, i: nat, k: nat): seq<Byte>
    requires LaidOut(|data|, cds) && Known(cds, i, k)
  {
    SlotInFile(|data|, cds, i, k);
    data[SlotOffset(cds[i], k)..SlotOffset(cds[i], k) + cds[i].hashSize]
  }

  /** Byte `m` of the page of slot `k` is byte `m` after `k` whole pages; a page ends with the code. */
  lemma PageBytes(data: seq<Byte>, cds: seq<CodeDirectory>, i: nat, k: nat, m: nat)
    requires LaidOut(|data|, cds) && Known(cds, i, k)
    ensures var at := k * Pow2(PageLog(cds[i])) + m;
            && (m < |Page(data, cds, i, k)| <==> m < Pow2(PageLog(cds[i])) && at < cds[i].codeLimit)
            && (m < |Page(data, cds, i, k)| ==> at < |data| && Page(data, cds, i, k)[m] == data[at])
  {
    hide PageSize, LaidOut, SlotOffset;
    PageSizes(cds[i]);
    SlotInFile(|data|, cds, i, k);
  }

  /** Byte `j` of slot `k` lies `k` hashes and `j` bytes into the hash table of its blob. */
  lemma SlotBytes(data: seq<Byte>, cds: seq<CodeDirectory>, i: nat, k: nat, j: nat)
    requires LaidOut(|data|, cds) && Known(cds, i, k)
    ensures var cd := cds[i];
            var at := cd.blobOffset + cd.hashOffset + k * cd.hashSize + j;
            && (j < |Slot(data, cds, i, k)| <==> j < cd.hashSize)
            && (InSlot(cd, k, at) <==> j < cd.hashSize)
            && (j < cd.hashSize ==> at < |data| && Slot(data, cds, i, k)[j] == data[at])
  {
    hide LaidOut, PageStart, PageEnd;
    SlotInFile(|data|, cds, i, k);
  }

  /** The slot holds the (truncated) hash of its page. */
  ghost predicate SlotValid(data: seq<Byte>, cds: seq<CodeDirectory>, i: nat, k: nat, hash: Hash)
    requires LaidOut(|data|, cds) && Known(cds, i, k) && LongEnough(cds, hash)
  {
    Slot(data, cds, i, k) == hash(cds[i].hashType, Page(data, cds, i, k))[..cds[i].hashSize]
  }

  ghost predicate AllValid(data: seq<Byte>, cds: seq<CodeDirectory>, hash: Hash)
    requires LaidOut(|data|, cds) && LongEnough(cds, hash)
  {
    forall i: nat, k: nat | Known(cds, i, k) :: SlotValid(data, cds, i, k, hash)
  }

  // ---- The spec of a patch ----

  /** The file is written from `off` on. */
  function WriteAt(data: seq<Byte>, off: nat, bytes: seq<Byte>): (r: seq<Byte>)
    requires off + |bytes| <= |data|
    ensures |r| == |data|
    ensures forall p | 0 <= p < |data| :: r[p] == if off <= p < off + |bytes| then bytes[p - off] else data[p]
  {
    data[..off] + bytes + data[off + |bytes|..]
  }

  /** A byte of a slot whose page the patch touches. */
  ghost predicate TouchedByte(cds: seq<CodeDirectory>, start: nat, length: nat, p: nat) {
    exists i: nat, k: nat :: Known(cds, i, k) && Touches(cds[i], k, start, length) && InSlot(cds[i], k, p)
  }

  /** `after` is `patched` with every touched slot of the first `n` directories made valid and
      nothing else changed. */
  ghost predicate Resigned(patched: seq<Byte>, after: seq<Byte>, cds: seq<CodeDirectory>, n: nat,
                           start: nat, length: nat, hash: Hash)
    requires LaidOut(|patched|, cds) && LongEnough(cds, hash)
  {
    && |after| == |patched|
    && (forall p | 0 <= p < |after| && after[p] != patched[p] :: TouchedByte(cds, start, length, p))
    && (forall i: nat, k: nat | i < n && Known(cds, i, k) && Touches(cds[i], k, start, length) ::
          SlotValid(after, cds, i, k, hash))
  }

  /** Slots are judged by their own bytes and their page's. */
  lemma SlotFrame(d: seq<Byte>, e: seq<Byte>, cds: seq<CodeDirectory>, i: nat, k: nat, hash: Hash)
    requires |d| == |e| && LaidOut(|d|, cds) && LongEnough(cds, hash) && Known(cds, i, k)
    requires forall p | 0 <= p < |d| && InSlot(cds[i], k, p) :: d[p] == e[p]
    requires forall p | 0 <= p < |d| && PageStart(cds[i], k) <= p < PageEnd(cds[i], k) :: d[p] == e[p]
    ensures SlotValid(d, cds, i, k, hash) == SlotValid(e, cds, i, k, hash)
  {
    hide SlotOffset, PageStart, PageEnd, LaidOut;
    SlotInFile(|d|, cds, i, k);
    assert Slot(d, cds, i, k) == Slot(e, cds, i, k);
    assert Page(d, cds, i, k) == Page(e, cds, i, k);
  }

  /** Writing one slot's hash makes that slot valid and leaves every other slot as it was. */
  lemma WriteSlot(d: seq<Byte>, cds: seq<CodeDirectory>, i: nat, k: nat, hash: Hash) returns (e: seq<Byte>)
    requires LaidOut(|d|, cds) && LongEnough(cds, hash) && Known(cds, i, k)
    ensures SlotOffset(cds[i], k) + cds[i].hashSize <= |d|
    ensures e == WriteAt(d, SlotOffset(cds[i], k), hash(cds[i].hashType, Page(d, cds, i, k))[..cds[i].hashSize])
    ensures SlotValid(e, cds, i, k, hash)
    ensures forall p | 0 <= p < |d| && e[p] != d[p] :: InSlot(cds[i], k, p)
    ensures forall i': nat, k': nat | Known(cds, i', k') && (i' != i || k' != k) ::
              SlotValid(e, cds, i', k', hash) == SlotValid(d, cds, i', k', hash)
  {
    hide SlotOffset, PageStart, PageEnd, LaidOut, SlotValid, Page, WriteAt;
    SlotInFile(|d|, cds, i, k);
    var h := hash(cds[i].hashType, Page(d, cds, i, k))[..cds[i].hashSize];
    e := WriteAt(d, SlotOffset(cds[i], k), h);
    WrittenSlot(d, cds, i, k, hash, h);
    forall i': nat, k': nat | Known(cds, i', k') && (i' != i || k' != k)
      ensures SlotValid(e, cds, i', k', hash) == SlotValid(d, cds, i', k', hash)
    {
      OtherSlot(d, cds, i, k, h, i', k', hash);
    }
  }

  lemma WrittenSlot(d: seq<Byte>, cds: seq<CodeDirectory>, i: nat, k: nat, hash: Hash, h: seq<Byte>)
    requires LaidOut(|d|, cds) && LongEnough(cds, hash) && Known(cds, i, k)
    requires h == hash(cds[i].hashType, Page(d, cds, i, k))[..cds[i].hashSize]
    requires SlotOffset(cds[i], k) + |h| <= |d|
    ensures SlotValid(WriteAt(d, SlotOffset(cds[i], k), h), cds, i, k, hash)
  {
    hide SlotOffset, PageStart, PageEnd, LaidOut, WriteAt;
    SlotInFile(|d|, cds, i, k);
    var e := WriteAt(d, SlotOffset(cds[i], k), h);
    assert Slot(e, cds, i, k) == h;
    assert Page(e, cds, i, k) == Page(d, cds, i, k);
  }

  lemma OtherSlot(d: seq<Byte>, cds: seq<CodeDirectory>, i: nat, k: nat, h: seq<Byte>, i': nat, k': nat, hash: Hash)
    requires LaidOut(|d|, cds) && LongEnough(cds, hash) && Known(cds, i, k) && Known(cds, i', k')
    requires i' != i || k' != k
    requires |h| == cds[i].hashSize && SlotOffset(cds[i], k) + |h| <= |d|
    ensures SlotValid(WriteAt(d, SlotOffset(cds[i], k), h), cds, i', k', hash) == SlotValid(d, cds, i', k', hash)
  {
    hide SlotOffset, PageStart, PageEnd, LaidOut, WriteAt, SlotValid;
    SlotInFile(|d|, cds, i, k);
    SlotInFile(|d|, cds, i', k');
    var e := WriteAt(d, SlotOffset(cds[i], k), h);
    forall p | 0 <= p < |d| && InSlot(cds[i'], k', p) ensures d[p] == e[p] {
      if InSlot(cds[i], k, p) {
        SlotsApart(|d|, cds, i, k, i', k', p);
      }
    }
    SlotFrame(d, e, cds, i', k', hash);
  }

  lemma DigestLength(cds: seq<CodeDirectory>, hash: Hash, i: nat, b: seq<Byte>)
    requires LongEnough(cds, hash) && i < |cds|
    ensures |hash(cds[i].hashType, b)| >= cds[i].hashSize
  {
  }

  lemma ResignedStep(patched: seq<Byte>, d: seq<Byte>, e: seq<Byte>, cds: seq<CodeDirectory>, n: nat, i: nat, k: nat,
                     start: nat, length: nat, hash: Hash)
    requires LaidOut(|patched|, cds) && LongEnough(cds, hash) && Known(cds, i, k) && n <= i
    requires Resigned(patched, d, cds, n, start, length, hash) && Touches(cds[i], k, start, length)
    requires |e| == |d| && forall p | 0 <= p < |d| && e[p] != d[p] :: InSlot(cds[i], k, p)
    requires forall i': nat, k': nat | Known(cds, i', k') && (i' != i || k' != k) ::
               SlotValid(e, cds, i', k', hash) == SlotValid(d, cds, i', k', hash)
    ensures Resigned(patched, e, cds, n, start, length, hash)
  {
    hide LaidOut, SlotValid, Touches, InSlot, LongEnough;
    forall p | 0 <= p < |e| && e[p] != patched[p] ensures TouchedByte(cds, start, length, p) {
      if e[p] != d[p] {
        assert InSlot(cds[i], k, p);
      }
    }
  }

  // ---- The re-signer ----

  datatype Outcome =
    | Done(touched: seq<seq<nat>>)
    | ExceedsCodeLimit(codeLimit: nat)
    | UnsupportedHash(hashType: nat)

  predicate Supported(hashType: nat) {
    1 <= hashType <= 4
  }

  predicate Fits(cds: seq<CodeDirectory>, start: nat, length: nat) {
    forall i | 0 <= i < |cds| :: start + length <= cds[i].codeLimit
  }

  class File {
    var data: seq<Byte>

    constructor (data: seq<Byte>)
      ensures this.data == data
    {
      this.data := data;
    }

    /** A seek and a write within the file. */
    method Write(off: nat, bytes: seq<Byte>)
      requires off + |bytes| <= |data|
      modifies this
      ensures data == WriteAt(old(data), off, bytes)
    {
      data := WriteAt(data, off, bytes);
    }

    /** Re-hashes the touched slots of one directory. */
    method RehashDirectory(cds: seq<CodeDirectory>, idx: nat, start: nat, length: nat, hash: Hash,
                           ghost patched: seq<Byte>) returns (slots: seq<nat>)
      requires LaidOut(|data|, cds) && LongEnough(cds, hash) && idx < |cds|
      requires |data| == |patched| && Resigned(patched, data, cds, idx, start, length, hash)
      modifies this
      ensures |data| == |patched| && Resigned(patched, data, cds, idx + 1, start, length, hash)
      ensures forall k: nat :: k in slots <==> k < cds[idx].nCodeSlots && Touches(cds[idx], k, start, length)
    {
      hide LaidOut, SlotValid, Touches, SlotOffset, PageStart, PageEnd, LongEnough;
      var cd := cds[idx];
      slots := PagesForRange(cd, start, length);
      for n := 0 to |slots|
        invariant |data| == |patched| && Resigned(patched, data, cds, idx, start, length, hash)
        invariant forall j | 0 <= j < n :: Known(cds, idx, slots[j]) && SlotValid(data, cds, idx, slots[j], hash)
      {
        ghost var was := data;
        var slot := slots[n];
        assert slot in slots && Known(cds, idx, slot);
        SlotInFile(|data|, cds, idx, slot);
        var pageData := data[PageStart(cd, slot)..PageEnd(cd, slot)];
        assert pageData == Page(data, cds, idx, slot);
        assert |hash(cds[idx].hashType, pageData)| >= cds[idx].hashSize by {
          DigestLength(cds, hash, idx, pageData);
        }
        var newHash := hash(cd.hashType, pageData);
        ghost var written := WriteSlot(data, cds, idx, slot, hash);
        Write(SlotOffset(cd, slot), newHash[..cd.hashSize]);
        assert data == written;
        ResignedStep(patched, was, data, cds, idx, idx, slot, start, length, hash);
      }
    }

    /** Patches the file and, with `fixHashes`, re-hashes the touched slots of every directory. A
        patch reaching beyond some `codeLimit` is refused before anything is written; a hash type
        without a function is noticed only after the patch and the directories before it. */
    method PatchAndResign(cds: seq<CodeDirectory>, start: nat, bytes: seq<Byte>, fixHashes: bool, hash: Hash)
      returns (r: Outcome)
      requires cds != [] && LaidOut(|data|, cds) && LongEnough(cds, hash)
      modifies this
      ensures |data| == |old(data)|
      ensures !Fits(cds, start, |bytes|) <==> r.ExceedsCodeLimit?
      ensures r.ExceedsCodeLimit? ==> data == old(data)
      ensures r.UnsupportedHash? <==>
                Fits(cds, start, |bytes|) && fixHashes && exists i | 0 <= i < |cds| :: !Supported(cds[i].hashType)
      ensures !r.ExceedsCodeLimit? ==> start + |bytes| <= |data|
      ensures !r.ExceedsCodeLimit? && !fixHashes ==> r == Done([]) && data == WriteAt(old(data), start, bytes)
      ensures r.Done? && fixHashes ==>
                Resigned(WriteAt(old(data), start, bytes), data, cds, |cds|, start, |bytes|, hash)
      ensures r.Done? && fixHashes ==> |r.touched| == |cds| && forall i, k: nat | 0 <= i < |cds| ::
                k in r.touched[i] <==> k < cds[i].nCodeSlots && Touches(cds[i], k, start, |bytes|)
      ensures r.UnsupportedHash? ==> exists i | 0 <= i < |cds| && cds[i].hashType == r.hashType && !Supported(r.hashType) ::
                Resigned(WriteAt(old(data), start, bytes), data, cds, i, start, |bytes|, hash)
    {
      hide LaidOut, SlotValid, Touches, LongEnough, SlotOffset, Resigned;
      for i := 0 to |cds|
        invariant forall j | 0 <= j < i :: start + |bytes| <= cds[j].codeLimit
      {
        if start + |bytes| > cds[i].codeLimit {
          return ExceedsCodeLimit(cds[i].codeLimit);
        }
      }
      CodeInFile(|data|, cds);
      assert start + |bytes| <= cds[0].codeLimit;
      Write(start, bytes);
      ghost var patched := data;
      var touched := [];
      if fixHashes {
        NothingDone(patched, cds, start, |bytes|, hash);
        for idx := 0 to |cds|
          invariant |data| == |patched| && Resigned(patched, data, cds, idx, start, |bytes|, hash)
          invariant forall i | 0 <= i < idx :: Supported(cds[i].hashType)
          invariant |touched| == idx && forall i, k: nat | 0 <= i < idx ::
                      k in touched[i] <==> k < cds[i].nCodeSlots && Touches(cds[i], k, start, |bytes|)
        {
          if !Supported(cds[idx].hashType) {
            return UnsupportedHash(cds[idx].hashType);
          }
          var slots := RehashDirectory(cds, idx, start, |bytes|, hash, patched);
          touched := touched + [slots];
        }
      }
      return Done(touched);
    }
  }

  lemma CodeInFile(size: nat, cds: seq<CodeDirectory>)
    requires LaidOut(size, cds)
    ensures forall i | 0 <= i < |cds| :: cds[i].codeLimit <= size
  {
  }

  lemma NothingDone(patched: seq<Byte>, cds: seq<CodeDirectory>, start: nat, length: nat, hash: Hash)
    requires LaidOut(|patched|, cds) && LongEnough(cds, hash)
    ensures Resigned(patched, patched, cds, 0, start, length, hash)
  {
  }

  // ---- What the re-signer promises ----

  /** A slot the patch does not touch is as valid after as before. */
  lemma UntouchedSlot(before: seq<Byte>, after: seq<Byte>, cds: seq<CodeDirectory>, start: nat, bytes: seq<Byte>,
                      hash: Hash, i: nat, k: nat)
    requires LaidOut(|before|, cds) && LongEnough(cds, hash) && Known(cds, i, k)
    requires start + |bytes| <= |before| && Fits(cds, start, |bytes|)
    requires Resigned(WriteAt(before, start, bytes), after, cds, |cds|, start, |bytes|, hash)
    requires !Touches(cds[i], k, start, |bytes|)
    ensures SlotValid(after, cds, i, k, hash) == SlotValid(before, cds, i, k, hash)
  {
    hide LaidOut, SlotValid, LongEnough, SlotOffset, PageStart;
    var n := |before|;
    var patched := WriteAt(before, start, bytes);
    SlotInFile(n, cds, i, k);
    forall p | 0 <= p < n && InSlot(cds[i], k, p) ensures before[p] == after[p] {
      if after[p] != patched[p] {
        var i': nat, k': nat :| Known(cds, i', k') && Touches(cds[i'], k', start, |bytes|) && InSlot(cds[i'], k', p);
        SlotsApart(n, cds, i, k, i', k', p);
      }
    }
    forall p | 0 <= p < n && PageStart(cds[i], k) <= p < PageEnd(cds[i], k) ensures before[p] == after[p] {
      CodeIsUnslotted(n, cds, start, |bytes|, i, p);
    }
    SlotFrame(before, after, cds, i, k, hash);
  }

  /** A byte of the code is in no slot. */
  lemma CodeIsUnslotted(size: nat, cds: seq<CodeDirectory>, start: nat, length: nat, i: nat, p: nat)
    requires LaidOut(size, cds) && i < |cds| && p < cds[i].codeLimit
    ensures !TouchedByte(cds, start, length, p)
    ensures forall i': nat, k': nat | Known(cds, i', k') :: !InSlot(cds[i'], k', p)
  {
    hide LaidOut, SlotOffset, Touches;
    forall i': nat, k': nat | Known(cds, i', k') ensures !InSlot(cds[i'], k', p) {
      SlotInFile(size, cds, i', k');
    }
  }

  /** With the hashes fixed the whole image is valid if and only if every slot away from the patch
      was valid before. */
  lemma ValidAfterIff(before: seq<Byte>, after: seq<Byte>, cds: seq<CodeDirectory>, start: nat, bytes: seq<Byte>, hash: Hash)
    requires LaidOut(|before|, cds) && LongEnough(cds, hash)
    requires start + |bytes| <= |before| && Fits(cds, start, |bytes|)
    requires Resigned(WriteAt(before, start, bytes), after, cds, |cds|, start, |bytes|, hash)
    ensures AllValid(after, cds, hash) <==>
            forall i: nat, k: nat | Known(cds, i, k) && !Touches(cds[i], k, start, |bytes|) :: SlotValid(before, cds, i, k, hash)
  {
    hide LaidOut, SlotValid, LongEnough, Touches, WriteAt;
    forall i: nat, k: nat | Known(cds, i, k) && !Touches(cds[i], k, start, |bytes|)
      ensures SlotValid(after, cds, i, k, hash) == SlotValid(before, cds, i, k, hash)
    {
      UntouchedSlot(before, after, cds, start, bytes, hash, i, k);
    }
  }

  ghost predicate Slotted(cds: seq<CodeDirectory>, p: nat) {
    exists i: nat, k: nat :: Known(cds, i, k) && InSlot(cds[i], k, p)
  }

  /** `full` is a complete re-hash of `patched`: only slots differ, and every slot is valid. */
  ghost predicate FullRehash(patched: seq<Byte>, full: seq<Byte>, cds: seq<CodeDirectory>, hash: Hash)
    requires LaidOut(|patched|, cds) && LongEnough(cds, hash)
  {
    && |full| == |patched|
    && (forall p: nat | p < |full| && full[p] != patched[p] :: Slotted(cds, p))
    && AllValid(full, cds, hash)
  }

  lemma {:induction false} FullRehashIsUnique(patched: seq<Byte>, a: seq<Byte>, b: seq<Byte>, cds: seq<CodeDirectory>, hash: Hash)
    requires LaidOut(|patched|, cds) && LongEnough(cds, hash)
    requires FullRehash(patched, a, cds, hash) && FullRehash(patched, b, cds, hash)
    ensures a == b
  {
    hide LaidOut, LongEnough, SlotOffset, PageStart;
    forall p: nat | p < |a| ensures a[p] == b[p] {
      if Slotted(cds, p) {
        var i: nat, k: nat :| Known(cds, i, k) && InSlot(cds[i], k, p);
        SameSlot(patched, a, b, cds, hash, i, k);
        SlotInFile(|a|, cds, i, k);
        assert a[p] == Slot(a, cds, i, k)[p - SlotOffset(cds[i], k)];
        assert b[p] == Slot(b, cds, i, k)[p - SlotOffset(cds[i], k)];
      }
    }
  }

  lemma SameSlot(patched: seq<Byte>, a: seq<Byte>, b: seq<Byte>, cds: seq<CodeDirectory>, hash: Hash, i: nat, k: nat)
    requires LaidOut(|patched|, cds) && LongEnough(cds, hash) && Known(cds, i, k)
    requires FullRehash(patched, a, cds, hash) && FullRehash(patched, b, cds, hash)
    ensures Slot(a, cds, i, k) == Slot(b, cds, i, k)
  {
    hide LaidOut, LongEnough, SlotOffset, PageStart;
    SlotInFile(|a|, cds, i, k);
    forall p: nat | PageStart(cds[i], k) <= p < PageEnd(cds[i], k) ensures a[p] == b[p] {
      CodeIsUnslotted(|a|, cds, 0, 0, i, p);
    }
    assert Page(a, cds, i, k) == Page(b, cds, i, k);
    assert SlotValid(a, cds, i, k, hash) && SlotValid(b, cds, i, k, hash);
  }

  /** From a valid image, re-hashing the touched slots alone gives what a full re-hash gives. */
  lemma AsFullRehash(before: seq<Byte>, after: seq<Byte>, full: seq<Byte>, cds: seq<CodeDirectory>, start: nat,
                     bytes: seq<Byte>, hash: Hash)
    requires LaidOut(|before|, cds) && LongEnough(cds, hash)
    requires start + |bytes| <= |before| && Fits(cds, start, |bytes|)
    requires Resigned(WriteAt(before, start, bytes), after, cds, |cds|, start, |bytes|, hash)
    requires AllValid(before, cds, hash)
    ensures AllValid(after, cds, hash)
    ensures full == after <==> FullRehash(WriteAt(before, start, bytes), full, cds, hash)
  {
    hide LaidOut, LongEnough, SlotValid, InSlot, Touches, WriteAt;
    ValidAfterIff(before, after, cds, start, bytes, hash);
    var patched := WriteAt(before, start, bytes);
    assert FullRehash(patched, after, cds, hash);
    if FullRehash(patched, full, cds, hash) {
      FullRehashIsUnique(patched, after, full, cds, hash);
    }
  }
}
