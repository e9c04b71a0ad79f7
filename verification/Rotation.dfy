/** The rotating log: a live file and numbered backups. Slot 0 is the live file, slot k the backup with suffix k. */
module Rotation {
  // ---------- the chain of slots ----------

  /** The source is checked first, so a missing slot cannot erase a surviving older one. */
  function RenameReplacing<T>(files: map<nat, T>, source: nat, destination: nat): map<nat, T> {
    if source !in files then files else (files - {source})[destination := files[source]]
  }

  /** Slots `index` down to 1 take what the slot below them holds. */
  ghost function Shifted<T>(files: map<nat, T>, index: nat): map<nat, T>
    decreases index
  {
    if index == 0 then files else Shifted(RenameReplacing(files, index - 1, index), index - 1)
  }

  function Slot<T>(files: map<nat, seq<T>>, k: nat): seq<T> {
    if k in files then files[k] else []
  }

  /** Everything in slots `k` down to 0, oldest first. */
  ghost function Chain<T>(files: map<nat, seq<T>>, k: nat): seq<T> {
    Slot(files, k) + if k == 0 then [] else Chain(files, k - 1)
  }

  /** What a rotation keeps: all but the oldest slot, and that one too when nothing moves into it. */
  ghost function Survivors<T>(files: map<nat, seq<T>>, backups: nat): seq<T> {
    if backups == 0 then [] else (if backups - 1 in files then [] else Slot(files, backups)) + Chain(files, backups - 1)
  }

  lemma {:induction false} ShiftedAbove<T>(files: map<nat, T>, index: nat, k: nat)
    requires k > index
    ensures k in Shifted(files, index) <==> k in files
    ensures k in files ==> Shifted(files, index)[k] == files[k]
    decreases index
  {
    if index > 0 { ShiftedAbove(RenameReplacing(files, index - 1, index), index - 1, k); }
  }

  lemma {:induction false} ShiftedLive<T>(files: map<nat, T>, index: nat)
    ensures index > 0 ==> 0 !in Shifted(files, index)
    decreases index
  {
    if index == 1 {
      assert Shifted(RenameReplacing(files, 0, 1), 0) == RenameReplacing(files, 0, 1);
    } else if index > 1 {
      ShiftedLive(RenameReplacing(files, index - 1, index), index - 1);
    }
  }

  /** Every slot but the live one takes what the slot below it held; the oldest keeps its own when nothing moves into it. */
  lemma {:induction false} ShiftedSlots<T>(files: map<nat, T>, index: nat, k: nat)
    requires 0 < k <= index
    ensures k in Shifted(files, index) <==> k - 1 in files || (k == index && k in files)
    ensures k - 1 in files ==> Shifted(files, index)[k] == files[k - 1]
    ensures k - 1 !in files && k == index && k in files ==> Shifted(files, index)[k] == files[k]
    decreases index
  {
    var moved := RenameReplacing(files, index - 1, index);
    if k == index { ShiftedAbove(moved, index - 1, index); } else { ShiftedSlots(moved, index - 1, k); }
  }

  lemma {:induction false} ChainAgrees<T>(a: map<nat, seq<T>>, b: map<nat, seq<T>>, k: nat)
    requires forall j :: 0 <= j <= k ==> Slot(a, j) == Slot(b, j)
    ensures Chain(a, k) == Chain(b, k)
  {
    if k > 0 { ChainAgrees(a, b, k - 1); }
  }

  /** Shifting moves the chain up by one slot; only what the top slot held is replaced, and only when something moves
      into it. */
  lemma {:induction false} ShiftedChain<T>(files: map<nat, seq<T>>, index: nat)
    requires index > 0
    ensures Chain(Shifted(files, index), index) == Survivors(files, index)
    decreases index
  {
    var moved := RenameReplacing(files, index - 1, index);
    ShiftedAbove(moved, index - 1, index);
    if index == 1 {
      ShiftedOne(files);
    } else {
      ShiftedChain(moved, index - 1);
      ChainAgrees(moved, files, index - 2);
      MovedSurvivors(files, index);
    }
  }

  lemma {:induction false} ShiftedOne<T>(files: map<nat, seq<T>>)
    ensures Chain(Shifted(files, 1), 1) == Survivors(files, 1)
  {
    var moved := RenameReplacing(files, 0, 1);
    assert Shifted(moved, 0) == moved;
    assert Chain(moved, 0) == Slot(moved, 0) && Chain(files, 0) == Slot(files, 0);
    assert Chain(moved, 1) == Slot(moved, 1) + Chain(moved, 0);
  }

  /** Once the top two slots are moved, what survives below them is what was there. */
  lemma {:induction false} MovedSurvivors<T>(files: map<nat, seq<T>>, index: nat)
    requires index > 1 && Chain(RenameReplacing(files, index - 1, index), index - 2) == Chain(files, index - 2)
    ensures Slot(RenameReplacing(files, index - 1, index), index) + Survivors(RenameReplacing(files, index - 1, index), index - 1) == Survivors(files, index)
  {
    var moved := RenameReplacing(files, index - 1, index);
    assert Survivors(moved, index - 1) == Chain(moved, index - 2);
    assert Chain(files, index - 1) == Slot(files, index - 1) + Chain(files, index - 2);
  }

  ghost function Concat(records: seq<string>): string {
    if records == [] then "" else Concat(records[..|records| - 1]) + records[|records| - 1]
  }

  ghost predicate Within<T>(files: map<nat, T>, backups: nat) {
    forall k :: k in files ==> k <= backups
  }

  ghost predicate Together<S, T>(files: map<nat, S>, chunks: map<nat, T>, j: nat, file: S, chunk: T) {
    j in files && j in chunks && files[j] == file && chunks[j] == chunk
  }

  /** A shifted slot holds what one slot held before, in both maps alike. */
  lemma {:induction false} ShiftedTogether<S, T>(files: map<nat, S>, chunks: map<nat, T>, index: nat, backups: nat)
    requires files.Keys == chunks.Keys && index <= backups && Within(files, backups)
    ensures Shifted(files, index).Keys == Shifted(chunks, index).Keys && Within(Shifted(files, index), backups)
    ensures forall k :: k in Shifted(files, index) ==>
      exists j :: Together(files, chunks, j, Shifted(files, index)[k], Shifted(chunks, index)[k])
    decreases index
  {
    if index > 0 {
      var f, c := RenameReplacing(files, index - 1, index), RenameReplacing(chunks, index - 1, index);
      ShiftedTogether(f, c, index - 1, backups);
      var f', c' := Shifted(f, index - 1), Shifted(c, index - 1);
      forall k | k in f' ensures exists j :: Together(files, chunks, j, f'[k], c'[k]) {
        var j :| Together(f, c, j, f'[k], c'[k]);
        assert Together(files, chunks, if j == index && index - 1 in files then index - 1 else j, f'[k], c'[k]);
      }
    } else {
      forall k | k in files ensures exists j :: Together(files, chunks, j, files[k], chunks[k]) {
        assert Together(files, chunks, k, files[k], chunks[k]);
      }
    }
  }

  /** What survives a rotation is a suffix of what the chain held. */
  lemma {:induction false} SurvivorsSuffix<T>(files: map<nat, seq<T>>, backups: nat, whole: seq<T>)
    requires Suffix(Chain(files, backups), whole)
    ensures Suffix(Survivors(files, backups), whole)
  {
    if backups > 0 {
      assert Chain(files, backups) == Slot(files, backups) + Chain(files, backups - 1);
    }
  }

  // ---------- the writer ----------

  ghost predicate Suffix<T>(s: seq<T>, whole: seq<T>) {
    |s| <= |whole| && s == whole[|whole| - |s|..]
  }

  /** The file is within the limit, or it is one oversize record, or nothing was added to what it held at the start. */
  ghost predicate Limited(file: string, chunk: seq<string>, maxBytes: int, initial: set<string>) {
    |file| <= maxBytes || file in chunk || file in initial
  }

  /** The files, the records each holds, and all the records written so far. */
  ghost predicate Sound(files: map<nat, string>, chunks: map<nat, seq<string>>, records: seq<string>, maxBytes: int,
                        backups: nat, initial: set<string>) {
    && Within(files, backups) && files.Keys == chunks.Keys
    && (forall k :: k in files ==> HeldBy(files[k], chunks[k], maxBytes, initial))
    && Suffix(Chain(chunks, backups), records)
  }

  ghost predicate HeldBy(file: string, chunk: seq<string>, maxBytes: int, initial: set<string>) {
    file == Concat(chunk) && Limited(file, chunk, maxBytes, initial)
  }

  ghost function Rolled<T>(files: map<nat, seq<T>>, backups: nat): map<nat, seq<T>> {
    (if backups == 0 then map[] else Shifted(files, backups))[0 := []]
  }

  /** A rotation keeps every file whole and discards at most what the oldest slot held. */
  lemma {:induction false} RotationSound(files: map<nat, string>, chunks: map<nat, seq<string>>, records: seq<string>,
                                         maxBytes: int, backups: nat, initial: set<string>)
    requires Sound(files, chunks, records, maxBytes, backups, initial) && maxBytes > 0
    ensures Sound(Rolled(files, backups), Rolled(chunks, backups), records, maxBytes, backups, initial)
    ensures Chain(Rolled(chunks, backups), backups) == Survivors(chunks, backups)
  {
    ShiftedTogether(files, chunks, backups, backups);
    SurvivorsSuffix(chunks, backups, records);
    RolledChain(chunks, backups);
    var f, c := Rolled(files, backups), Rolled(chunks, backups);
    forall k | k in f ensures HeldBy(f[k], c[k], maxBytes, initial) {
      if k != 0 {
        var j :| Together(files, chunks, j, f[k], c[k]);
        assert HeldBy(files[j], chunks[j], maxBytes, initial);
      }
    }
  }

  lemma {:induction false} RolledChain<T>(files: map<nat, seq<T>>, backups: nat)
    ensures Chain(Rolled(files, backups), backups) == Survivors(files, backups)
  {
    if backups > 0 {
      ShiftedLive(files, backups);
      ShiftedChain(files, backups);
      ChainAgrees(Rolled(files, backups), Shifted(files, backups), backups);
    }
  }

  lemma {:induction false} RolledSlots<T>(files: map<nat, seq<T>>, backups: nat)
    ensures 0 in Rolled(files, backups) && Rolled(files, backups)[0] == []
    ensures forall k: nat :: 0 < k <= backups && k - 1 in files ==>
      k in Rolled(files, backups) && Rolled(files, backups)[k] == files[k - 1]
  {
    forall k: nat | 0 < k <= backups && k - 1 in files
      ensures k in Rolled(files, backups) && Rolled(files, backups)[k] == files[k - 1]
    {
      ShiftedSlots(files, backups, k);
    }
  }

  /** Adding a record that fits, or that starts an empty file, keeps the state sound. */
  lemma {:induction false} AppendSound(files: map<nat, string>, chunks: map<nat, seq<string>>, records: seq<string>,
                                       maxBytes: int, backups: nat, initial: set<string>, data: string)
    requires Sound(files, chunks, records, maxBytes, backups, initial) && 0 in files
    requires files[0] == "" || |files[0]| + |data| <= maxBytes
    ensures Sound(files[0 := files[0] + data], chunks[0 := chunks[0] + [data]], records + [data], maxBytes, backups, initial)
    ensures Chain(chunks[0 := chunks[0] + [data]], backups) == Chain(chunks, backups) + [data]
  {
    ChainAppend(chunks, data, backups);
    SuffixAppend(Chain(chunks, backups), records, data);
    HeldByAppend(files[0], chunks[0], maxBytes, initial, data);
    var f, c := files[0 := files[0] + data], chunks[0 := chunks[0] + [data]];
    forall k | k in f ensures HeldBy(f[k], c[k], maxBytes, initial) {
      if k != 0 { assert HeldBy(files[k], chunks[k], maxBytes, initial); }
    }
  }

  lemma {:induction false} HeldByAppend(file: string, chunk: seq<string>, maxBytes: int, initial: set<string>,
                                        data: string)
    requires HeldBy(file, chunk, maxBytes, initial) && (file == "" || |file| + |data| <= maxBytes)
    ensures HeldBy(file + data, chunk + [data], maxBytes, initial)
  {
    assert (chunk + [data])[..|chunk|] == chunk;
    assert "" + data == data;
  }

  lemma {:induction false} SuffixAppend<T>(s: seq<T>, whole: seq<T>, x: T)
    requires Suffix(s, whole)
    ensures Suffix(s + [x], whole + [x])
  {
  }

  lemma {:induction false} ChainAppend<T>(files: map<nat, seq<T>>, record: T, k: nat)
    requires 0 in files
    ensures Chain(files[0 := files[0] + [record]], k) == Chain(files, k) + [record]
  {
    if k > 0 {
      ChainAppend(files, record, k - 1);
      assert Slot(files[0 := files[0] + [record]], k) == Slot(files, k);
    }
  }

  class RotatingWriter {
    const maxBytes: int
    const backups: nat
    var files: map<nat, string>
    var size: int
    var closed: bool
    ghost const initial: set<string>
    ghost var chunks: map<nat, seq<string>>
    ghost var records: seq<string>

    ghost predicate Valid()
      reads this
    {
      maxBytes > 0 && 0 in files && size == |files[0]| && Sound(files, chunks, records, maxBytes, backups, initial)
    }

    /** Opens over the files already there; each counts as one record written before. */
    constructor (maxBytes: int, backups: nat, found: map<nat, string>)
      requires maxBytes > 0 && Within(found, backups)
      ensures Valid() && !closed && this.maxBytes == maxBytes && this.backups == backups
      ensures files == if 0 in found then found else found[0 := ""]
      ensures records == Chain(chunks, backups) && forall k :: k in chunks ==> chunks[k] == [files[k]]
    {
      this.maxBytes, this.backups, this.closed := maxBytes, backups, false;
      var files := if 0 in found then found else found[0 := ""];
      this.files, this.size := files, |files[0]|;
      this.initial := files.Values;
      this.chunks := map k | k in files :: [files[k]];
      this.records := Chain(map k | k in files :: [files[k]], backups);
      new;
      forall k | k in this.files ensures HeldBy(this.files[k], chunks[k], maxBytes, initial) {
        assert chunks[k][..0] == [];
      }
    }

    /** Every file operation succeeds. */
    method Rotate()
      requires Valid()
      modifies this
      ensures Valid() && unchanged(`records) && unchanged(`closed) && size == 0
      ensures files == Rolled(old(files), backups) && chunks == Rolled(old(chunks), backups)
    {
      var rotated := files;
      var index: nat := backups;
      while index >= 1
        invariant index <= backups && Shifted(rotated, index) == Shifted(files, backups)
      {
        rotated := RenameReplacing(rotated, index - 1, index);
        index := index - 1;
      }
      if backups == 0 { rotated := rotated - {0}; }
      RotationSound(files, chunks, records, maxBytes, backups, initial);
      assert backups == 0 ==> files.Keys == {0};
      files, chunks, size := rotated[0 := ""], Rolled(chunks, backups), 0;
    }

    /** Appends to the live file; the record fits, or the file is empty. */
    method Append(data: string)
      requires Valid() && (size == 0 || size + |data| <= maxBytes)
      modifies this
      ensures Valid() && unchanged(`closed) && records == old(records) + [data]
      ensures files == Appended(old(files), data) && Chain(chunks, backups) == Chain(old(chunks), backups) + [data]
    {
      AppendSound(files, chunks, records, maxBytes, backups, initial, data);
      chunks := chunks[0 := chunks[0] + [data]];
      files := files[0 := files[0] + data];
      size := size + |data|;
      records := records + [data];
    }

    method Write(data: string) returns (ok: bool)
      requires Valid()
      modifies this
      ensures Valid() && unchanged(`closed) && (ok <==> !closed)
      ensures !ok ==> unchanged(this)
      ensures ok ==> records == old(records) + [data]
      ensures ok ==>
        files == Appended(if Overflows(old(size), data, maxBytes) then Rolled(old(files), backups) else old(files), data)
      ensures ok ==>
        Chain(chunks, backups) == (if Overflows(old(size), data, maxBytes) then Survivors(old(chunks), backups) else Chain(old(chunks), backups)) + [data]
      ensures ok && (old(size) == 0 || old(size) + |data| <= maxBytes) ==>
        files == old(files)[0 := old(files)[0] + data] && Chain(chunks, backups) == Chain(old(chunks), backups) + [data]
      ensures ok && old(size) > 0 && old(size) + |data| > maxBytes ==> RotatedOnto(old(files), files, data)
    {
      if closed { return false; }
      if size > 0 && size + |data| > maxBytes {
        RolledChain(chunks, backups);
        RolledSlots(files, backups);
        Rotate();
      }
      Append(data);
      ok := true;
    }

    /** The record starts a new live file, and every backup takes what the slot below it held. */
    ghost predicate RotatedOnto(before: map<nat, string>, after: map<nat, string>, data: string) {
      && 0 in after && after[0] == data
      && forall k :: 0 < k <= backups && k - 1 in before ==> k in after && after[k] == before[k - 1]
    }

    method Close()
      modifies this
      ensures closed && unchanged(`files) && unchanged(`size) && unchanged(`chunks) && unchanged(`records)
    {
      closed := true;
    }
  }

  predicate Overflows(size: int, data: string, maxBytes: int) { size > 0 && size + |data| > maxBytes }

  function Appended(files: map<nat, string>, data: string): map<nat, string>
    requires 0 in files
  {
    files[0 := files[0] + data]
  }
}
