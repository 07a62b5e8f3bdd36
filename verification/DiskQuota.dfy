/** The allocator of UC_DiskQuotaManager: which files take new records.

    Every method is one critical section under the quota lock (or the work that a file's use flag
    or its being off-line protects), so runs of calls are the interleavings of writers and trimmer. */
module DiskQuota {

  /** index lists all the files, each once; place is its inverse. */
  ghost predicate Permutation(index: seq<nat>, place: seq<nat>)
  {
    && |index| == |place|
    && (forall i :: 0 <= i < |index| ==> index[i] < |index| && place[index[i]] == i)
    && (forall f :: 0 <= f < |place| ==> place[f] < |place| && index[place[f]] == f)
  }

  /** Swapping two elements of a permutation leaves one. */
  lemma SwapKeeps(index: seq<nat>, place: seq<nat>, i: nat, j: nat)
    requires Permutation(index, place) && i < |index| && j < |index|
    ensures Permutation(index[i := index[j]][j := index[i]], place[index[i] := j][index[j] := i])
  {
  }

  datatype Start = Full | Busy | Granted(file: nat, offset: nat)

  class Quota {
    const allCount: nat
    const maxSize: nat          // of a file
    const maxWriteSize: nat     // of one write, payload included
    const curSize: array<nat>
    const indexNo: array<nat>   // the files, those with room for a write first
    const useFlag: array<bool>  // the file is being written to
    var curCount: nat           // how many files take new records
    ghost var place: seq<nat>   // where each file stands in indexNo
    ghost var trimming: int     // the file that is off-line for trimming, or -1

    /** The end of dqm_init: the sizes of the files as found, and their numbers sorted by size. */
    constructor (maxSize: nat, maxWriteSize: nat, sizes: seq<nat>, sorted: seq<nat>, ghost inverse: seq<nat>)
      requires maxWriteSize <= maxSize && |sizes| == |sorted| && Permutation(sorted, inverse)
      requires forall i, j :: 0 <= i < j < |sorted| ==> sizes[sorted[i]] <= sizes[sorted[j]]
      ensures Valid() && curSize[..] == sizes && trimming == -1 && forall f :: 0 <= f < allCount ==> !useFlag[f]
      ensures Limited() <==> forall f :: 0 <= f < |sizes| ==> sizes[f] <= maxSize
      ensures fresh(curSize) && fresh(indexNo) && fresh(useFlag) && allCount == |sizes|
      ensures forall f :: 0 <= f < allCount ==> (place[f] < curCount <==> HasRoom(f))
    {
      allCount, this.maxSize, this.maxWriteSize := |sizes|, maxSize, maxWriteSize;
      curSize := new nat[|sizes|](i requires 0 <= i < |sizes| => sizes[i]);
      indexNo := new nat[|sizes|](i requires 0 <= i < |sorted| => sorted[i]);
      useFlag := new bool[|sizes|](_ => false);
      curCount, place, trimming := 0, inverse, -1;
      new;
      assert curSize[..] == sizes && indexNo[..] == sorted;
      hide Permutation;
      while curCount < allCount
        invariant curCount <= allCount && curSize[..] == sizes && indexNo[..] == sorted && place == inverse
        invariant trimming == -1
        invariant forall f :: 0 <= f < allCount ==> !useFlag[f]
        invariant forall i :: 0 <= i < curCount ==> HasRoom(sorted[i])
      {
        if maxSize - curSize[indexNo[curCount]] < maxWriteSize {
          break;
        }
        curCount := curCount + 1;
      }
    }

    predicate HasRoom(f: nat)
      requires f < curSize.Length
      reads curSize
    {
      curSize[f] + maxWriteSize <= maxSize
    }

    ghost predicate Valid()
      reads this, curSize, indexNo, useFlag
    {
      && curSize.Length == indexNo.Length == useFlag.Length == allCount && curSize != indexNo && maxWriteSize <= maxSize
      && Permutation(indexNo[..], place) && |place| == allCount && curCount <= allCount
      && (forall i :: 0 <= i < curCount ==> HasRoom(indexNo[i]))
      && (forall f :: 0 <= f < allCount && useFlag[f] ==> place[f] < curCount)
      && (trimming != -1 ==> 0 <= trimming < allCount && curCount <= place[trimming])
    }

    /** No file has passed its limit. */
    ghost predicate Limited()
      reads this, curSize
    {
      forall f :: 0 <= f < curSize.Length ==> curSize[f] <= maxSize
    }

    /** Exchange positions i and j of the list. */
    method Swap(i: nat, j: nat)
      requires curSize.Length == indexNo.Length == useFlag.Length == allCount && curSize != indexNo
      requires Permutation(indexNo[..], place) && |place| == allCount && i < allCount && j < allCount
      modifies indexNo, this`place
      ensures Permutation(indexNo[..], place) && |place| == allCount
      ensures indexNo[..] == old(indexNo[..])[i := old(indexNo[j])][j := old(indexNo[i])]
      ensures place == old(place)[old(indexNo[i]) := j][old(indexNo[j]) := i]
    {
      hide Permutation;
      SwapKeeps(indexNo[..], place, i, j);
      PermutationBounds(indexNo[..], place, i);
      PermutationBounds(indexNo[..], place, j);
      place := place[indexNo[i] := j][indexNo[j] := i];
      var tmpNo := indexNo[i];
      indexNo[i] := indexNo[j];
      indexNo[j] := tmpNo;
    }

    /** The beginning of dqm_write_data: choose a file by the number of the write. */
    method BeginWrite(addCount: nat) returns (r: Start)
      requires Valid()
      modifies useFlag
      ensures Valid()
      ensures r == Full <==> curCount == 0
      ensures r == Busy ==> exists f :: 0 <= f < allCount && place[f] < curCount && useFlag[f]
      ensures forall f :: 0 <= f < allCount && place[f] < curCount && addCount % curCount == place[f] ==>
        r == if old(useFlag[f]) then Busy else Granted(f, curSize[f])
      ensures r.Granted? ==>
        && r.file < allCount && !old(useFlag[r.file]) && place[r.file] < curCount && HasRoom(r.file)
        && r.offset == curSize[r.file] && r.file != trimming
      ensures forall f :: 0 <= f < allCount ==> useFlag[f] == (old(useFlag[f]) || (r.Granted? && r.file == f))
    {
      if curCount <= 0 {
        return Full;
      }
      var fileNo := indexNo[addCount % curCount];
      assert place[fileNo] == addCount % curCount;
      if useFlag[fileNo] {
        return Busy;
      }
      useFlag[fileNo] := true;
      return Granted(fileNo, curSize[fileNo]);
    }

    /** The end of dqm_write_data: the file has grown; take it off the list if it is full.  Nobody
        has compared the record's size with the largest announced. */
    method EndWrite(fileNo: nat, writeSize: nat)
      requires Valid() && fileNo < allCount && useFlag[fileNo]
      modifies curSize, indexNo, useFlag, this`curCount, this`place
      ensures Valid() && curSize[fileNo] == old(curSize[fileNo]) + writeSize && !useFlag[fileNo]
      ensures forall f :: 0 <= f < allCount && f != fileNo ==>
        curSize[f] == old(curSize[f]) && useFlag[f] == old(useFlag[f])
      ensures forall f :: 0 <= f < allCount ==>
        (place[f] < curCount <==> old(place[f] < curCount) && (f == fileNo ==> HasRoom(f)))
      ensures trimming != -1 ==> place[trimming] == old(place[trimming])
      ensures old(Limited()) ==> (Limited() <==> old(curSize[fileNo]) + writeSize <= maxSize)
      ensures writeSize <= maxWriteSize ==> old(curSize[fileNo]) + writeSize <= maxSize
    {
      assert HasRoom(indexNo[place[fileNo]]);
      curSize[fileNo] := curSize[fileNo] + writeSize;
      useFlag[fileNo] := false;
      if maxSize - curSize[fileNo] < maxWriteSize {
        TakeOff(fileNo);
      }
    }

    /** Move a file behind those that take new records. */
    method TakeOff(fileNo: nat)
      requires curSize.Length == indexNo.Length == useFlag.Length == allCount && curSize != indexNo
      requires Permutation(indexNo[..], place) && |place| == allCount && fileNo < allCount
      requires place[fileNo] < curCount <= allCount
      modifies indexNo, this`curCount, this`place
      ensures Permutation(indexNo[..], place) && |place| == allCount && curCount == old(curCount) - 1 == place[fileNo]
      ensures forall f :: 0 <= f < allCount && f != fileNo ==> (place[f] < curCount <==> old(place[f] < curCount))
      ensures forall f :: 0 <= f < allCount && old(curCount <= place[f]) ==> place[f] == old(place[f])
    {
      var idxNo := 0;
      while idxNo < curCount && indexNo[idxNo] != fileNo
        invariant idxNo <= place[fileNo]
      {
        idxNo := idxNo + 1;
      }
      assert idxNo == place[fileNo];
      Swap(idxNo, curCount - 1);
      curCount := curCount - 1;
    }

    /** The beginning of a trim: take file i off-line unless it is in use or empty. */
    method BeginTrim(i: nat) returns (ok: bool, pos: nat)
      requires Valid() && i < allCount && trimming == -1
      modifies indexNo, this`curCount, this`place, this`trimming
      ensures Valid() && (ok <==> !useFlag[i] && curSize[i] > 0)
      ensures if ok then trimming == i && pos == place[i]
        else trimming == -1 && curCount == old(curCount) && place == old(place)
      ensures forall f :: 0 <= f < allCount && f != i ==> (place[f] < curCount <==> old(place[f] < curCount))
    {
      pos := 0;
      while indexNo[pos] != i
        invariant pos <= place[i]
        decreases allCount - pos
      {
        pos := pos + 1;
      }
      if useFlag[i] || curSize[i] <= 0 {
        return false, pos;
      }
      if pos < curCount {
        Swap(pos, curCount - 1);
        curCount := curCount - 1;
        pos := curCount;
      }
      trimming := i;
      return true, pos;
    }

    /** The end of a trim: the file is empty and goes back on-line.  It is still where it was left,
        although writers may have taken other files off the list in the meantime. */
    method EndTrim(i: nat, pos: nat)
      requires Valid() && i < allCount && trimming == i && pos == place[i]
      modifies curSize, indexNo, this`curCount, this`place, this`trimming
      ensures Valid() && trimming == -1 && curSize[i] == 0 && curCount == old(curCount) + 1 && place[i] < curCount
      ensures forall f :: 0 <= f < allCount && f != i ==>
        curSize[f] == old(curSize[f]) && (place[f] < curCount <==> old(place[f] < curCount))
    {
      curSize[i] := 0;
      assert indexNo[pos] == i;
      Swap(curCount, pos);
      curCount := curCount + 1;
      trimming := -1;
    }
  }

  lemma PermutationBounds(index: seq<nat>, place: seq<nat>, i: nat)
    requires Permutation(index, place) && i < |index|
    ensures |place| == |index| && index[i] < |index|
  {
  }
}
