/** Directory entries as they lie in a directory's file (directory.h), and the
    finite map from names to sectors that a table of entries stands for. */
module Records {
  import opened Sequences
  import opened Sectors
  import opened Inodes

  const RECORD_SIZE := 36
  const NAME_MAX := 30

  // A string without the zero at its end.
  type Name = n: seq<Byte> | 0 !in n

  // struct dir_entry
  datatype Record = Record(sector: Word, name: seq<Byte>, inUse: bool)

  // What a zero-terminated buffer holds.
  function CStr(buffer: seq<Byte>): (n: Name)
    ensures |n| <= |buffer|
  {
    if buffer == [] || buffer[0] == 0 then [] else [buffer[0]] + CStr(buffer[1..])
  }

  // strncpy of a name into a buffer of N bytes.
  function Padded(n: seq<Byte>, size: nat): (b: seq<Byte>)
    ensures |b| == size
  {
    seq(size, i requires 0 <= i < size => if i < |n| then n[i] else 0)
  }

  lemma {:induction false} PaddedString(n: Name, size: nat)
    requires |n| < size
    ensures CStr(Padded(n, size)) == n
    decreases |n|
  {
    var b := Padded(n, size);
    if n != [] {
      assert n[0] in n && forall x :: x in n[1..] ==> x in n;
      PaddedString(n[1..], size - 1);
      assert b[1..] == Padded(n[1..], size - 1);
      assert n == [n[0]] + n[1..];
    }
  }

  function EncodeRecord(r: Record): (b: seq<Byte>)
    requires |r.name| == NAME_MAX + 1
    ensures |b| == RECORD_SIZE
  {
    [ByteOf(r.sector, 0), ByteOf(r.sector, 1), ByteOf(r.sector, 2), ByteOf(r.sector, 3)]
    + r.name + [if r.inUse then 1 else 0]
  }

  function DecodeRecord(b: seq<Byte>): (r: Record)
    requires |b| == RECORD_SIZE
    ensures |r.name| == NAME_MAX + 1
  {
    Record(b[0] as int + 0x100 * (b[1] as int) + 0x1_0000 * (b[2] as int) + 0x100_0000 * (b[3] as int), b[4..RECORD_SIZE - 1], b[RECORD_SIZE - 1] != 0)
  }

  /** An entry written and read back is the same entry. */
  lemma RecordRoundTrip(r: Record)
    requires |r.name| == NAME_MAX + 1
    ensures DecodeRecord(EncodeRecord(r)) == r
  {
    WordSplits(r.sector);
  }

  // ----- tables -----

  // The bytes of entry J.
  function Chunk(c: seq<Byte>, j: nat): seq<Byte>
    requires RECORD_SIZE * j + RECORD_SIZE <= |c|
  {
    c[RECORD_SIZE * j..RECORD_SIZE * j + RECORD_SIZE]
  }

  // The entries in a directory's bytes.
  function Entries(c: seq<Byte>): (es: seq<Record>)
    ensures |es| == |c| / RECORD_SIZE
    ensures forall k :: 0 <= k < |es| ==> |es[k].name| == NAME_MAX + 1
  {
    seq(|c| / RECORD_SIZE, k requires 0 <= k < |c| / RECORD_SIZE => DecodeRecord(Chunk(c, k)))
  }

  // Entry K is a binding; entry 0 is not, it holds the parent directory.
  predicate Binds(es: seq<Record>, k: nat) {
    0 < k < |es| && es[k].inUse
  }

  function NameAt(es: seq<Record>, k: nat): Name
    requires k < |es|
  {
    CStr(es[k].name)
  }

  predicate ValidName(n: seq<Byte>) {
    0 < |n| <= NAME_MAX
  }

  /** A well-formed table: entry 0 is in use, and the bindings have valid, distinct names. */
  ghost predicate TableOk(es: seq<Record>) {
    && |es| > 0 && es[0].inUse
    && (forall k: nat :: Binds(es, k) ==> ValidName(NameAt(es, k)))
    && (forall j: nat, k: nat :: Binds(es, j) && Binds(es, k) && j != k ==> NameAt(es, j) != NameAt(es, k))
  }

  // The first binding of N from entry FROM on, or |es| if there is none.
  function Find(es: seq<Record>, n: seq<Byte>, from: nat): (k: nat)
    requires from <= |es|
    ensures from <= k <= |es| && (k < |es| ==> Binds(es, k) && NameAt(es, k) == n)
    ensures forall j :: from <= j < k ==> !(Binds(es, j) && NameAt(es, j) == n)
    decreases |es| - from
  {
    if from == |es| || (Binds(es, from) && NameAt(es, from) == n) then from else Find(es, n, from + 1)
  }

  // The first entry not in use, or |es| if there is none.
  function FreeSlot(es: seq<Record>): (k: nat)
    ensures k <= |es| && (k < |es| ==> !es[k].inUse) && forall j :: 0 <= j < k ==> es[j].inUse
  {
    if es == [] || !es[0].inUse then 0 else 1 + FreeSlot(es[1..])
  }

  // The names bound from entry K on, in the order of their entries.
  function BoundNames(es: seq<Record>, k: nat): seq<Name>
    requires k <= |es|
    decreases |es| - k
  {
    if k == |es| then []
    else if Binds(es, k) then [NameAt(es, k)] + BoundNames(es, k + 1)
    else BoundNames(es, k + 1)
  }

  /** They are the names of the table, each once. */
  lemma {:induction false} BoundOnce(es: seq<Record>, k: nat)
    requires TableOk(es) && k <= |es|
    ensures NoDup(BoundNames(es, k))
    ensures forall n :: n in BoundNames(es, k) <==> Find(es, n, k) < |es|
    decreases |es| - k
  {
    hide CStr;
    if k < |es| {
      BoundOnce(es, k + 1);
      if Binds(es, k) {
        TableAt(es, k);
        NoDupJoin([NameAt(es, k)], BoundNames(es, k + 1));
      }
    }
  }

  // Nothing is bound among entries not in use.
  lemma {:induction false} SkipFree(es: seq<Record>, k: nat, j: nat)
    requires 0 < k <= j <= |es| && forall i :: k <= i < j ==> !es[i].inUse
    ensures BoundNames(es, k) == BoundNames(es, j)
    decreases j - k
  {
    if k < j {
      SkipFree(es, k + 1, j);
    }
  }

  ghost function Names(es: seq<Record>): set<Name> {
    set k | 0 <= k < |es| && Binds(es, k) :: NameAt(es, k)
  }

  /** The finite map it stands for. */
  ghost function Table(es: seq<Record>): map<Name, Word> {
    map n | n in Names(es) :: var k := Find(es, n, 0); if k < |es| then es[k].sector else 0
  }

  lemma TableAt(es: seq<Record>, k: nat)
    requires TableOk(es) && Binds(es, k)
    ensures NameAt(es, k) in Table(es) && Table(es)[NameAt(es, k)] == es[k].sector
    ensures Find(es, NameAt(es, k), 0) == k
  {
    var n := NameAt(es, k);
    assert n in Names(es);
    assert Find(es, n, 0) <= k;
  }

  lemma TableFrom(es: seq<Record>, n: Name) returns (k: nat)
    requires TableOk(es) && n in Table(es)
    ensures Binds(es, k) && NameAt(es, k) == n && es[k].sector == Table(es)[n]
  {
    k :| k < |es| && Binds(es, k) && NameAt(es, k) == n;
    TableAt(es, k);
  }

  // What makes a map the table's map.
  lemma TableIs(es: seq<Record>, m: map<Name, Word>)
    requires TableOk(es)
    requires forall j: nat :: Binds(es, j) ==> NameAt(es, j) in m && m[NameAt(es, j)] == es[j].sector
    requires forall n :: n in m ==> Find(es, n, 0) < |es|
    ensures Table(es) == m
  {
    hide TableOk, CStr, NameAt;
    forall n | n in m
      ensures n in Table(es)
    {
      assert NameAt(es, Find(es, n, 0)) == n;
    }
    forall n | n in Table(es)
      ensures n in m && Table(es)[n] == m[n]
    {
      var j := TableFrom(es, n);
    }
  }

  // The entry a new binding is put in.
  function NewEntry(n: Name, sector: Word): (r: Record)
    ensures |r.name| == NAME_MAX + 1
  {
    Record(sector, Padded(n, NAME_MAX + 1), true)
  }

  function WithEntry(es: seq<Record>, k: nat, r: Record): seq<Record>
    requires k <= |es|
  {
    if k < |es| then es[k := r] else es + [r]
  }

  /** Using a free entry, or one more, for a new name adds exactly that binding. */
  lemma AddedBinding(es: seq<Record>, k: nat, n: Name, sector: Word)
    requires TableOk(es) && k <= |es| && (k < |es| ==> !es[k].inUse)
    requires ValidName(n) && n !in Table(es)
    ensures TableOk(WithEntry(es, k, NewEntry(n, sector)))
    ensures Table(WithEntry(es, k, NewEntry(n, sector))) == Table(es)[n := sector]
  {
    hide Table, CStr;
    var es' := WithEntry(es, k, NewEntry(n, sector));
    PaddedString(n, NAME_MAX + 1);
    assert k > 0 && Binds(es', k) && NameAt(es', k) == n;
    forall j: nat | Binds(es', j) && j != k
      ensures Binds(es, j) && es'[j] == es[j] && NameAt(es, j) != n
      ensures NameAt(es, j) in Table(es) && Table(es)[NameAt(es, j)] == es[j].sector
    {
      TableAt(es, j);
    }
    forall m | m in Table(es)[n := sector]
      ensures Find(es', m, 0) < |es'|
    {
      var j := k;
      if m != n {
        j := TableFrom(es, m);
        assert es'[j] == es[j];
      }
      assert Binds(es', j) && NameAt(es', j) == m;
    }
    TableIs(es', Table(es)[n := sector]);
  }

  /** Marking an entry free removes exactly its binding. */
  lemma RemovedBinding(es: seq<Record>, k: nat)
    requires TableOk(es) && Binds(es, k)
    ensures var es' := WithEntry(es, k, es[k].(inUse := false));
            TableOk(es') && Table(es') == Table(es) - {NameAt(es, k)}
  {
    hide Table, CStr;
    var es' := WithEntry(es, k, es[k].(inUse := false));
    forall j: nat | Binds(es', j)
      ensures Binds(es, j) && es'[j] == es[j] && j != k
      ensures NameAt(es, j) in Table(es) && Table(es)[NameAt(es, j)] == es[j].sector
    {
      TableAt(es, j);
    }
    forall m | m in Table(es) - {NameAt(es, k)}
      ensures Find(es', m, 0) < |es'|
    {
      var j := TableFrom(es, m);
      assert es'[j] == es[j];
      assert Binds(es', j) && NameAt(es', j) == m;
    }
    TableIs(es', Table(es) - {NameAt(es, k)});
  }

  // ----- entries among bytes -----

  lemma ChunkAfter(c: seq<Byte>, k: nat, b: seq<Byte>, j: nat)
    requires |b| == RECORD_SIZE && RECORD_SIZE * k <= |c|
    requires j == k || RECORD_SIZE * j + RECORD_SIZE <= |c|
    ensures Chunk(Splice(c, RECORD_SIZE * k, b), j) == if j == k then b else Chunk(c, j)
  {
    var c', from := Splice(c, RECORD_SIZE * k, b), RECORD_SIZE * j;
    assert j < k ==> from + RECORD_SIZE <= RECORD_SIZE * k;
    assert j > k ==> RECORD_SIZE * k + RECORD_SIZE <= from;
    forall i | 0 <= i < RECORD_SIZE
      ensures Chunk(c', j)[i] == if j == k then b[i] else Chunk(c, j)[i]
    {
      assert Chunk(c', j)[i] == c'[from + i];
    }
  }

  /** Writing an entry's bytes at its place changes that entry only. */
  lemma EntryWritten(c: seq<Byte>, k: nat, r: Record)
    requires |c| % RECORD_SIZE == 0 && k <= |Entries(c)| && |r.name| == NAME_MAX + 1
    ensures var c' := Splice(c, RECORD_SIZE * k, EncodeRecord(r));
            |c'| % RECORD_SIZE == 0 && Entries(c') == WithEntry(Entries(c), k, r)
  {
    hide EncodeRecord, DecodeRecord, Splice;
    var c' := Splice(c, RECORD_SIZE * k, EncodeRecord(r));
    var n := |Entries(c)|;
    assert |c| == RECORD_SIZE * n;
    assert |c'| == RECORD_SIZE * (if k < n then n else n + 1);
    RecordRoundTrip(r);
    forall j | 0 <= j < |Entries(c')|
      ensures Entries(c')[j] == WithEntry(Entries(c), k, r)[j]
    {
      ChunkAfter(c, k, EncodeRecord(r), j);
    }
  }

  /** A file of zeros with entry 0 written is an empty directory. */
  lemma FreshTable(count: nat, sector: Word)
    requires count > 0
    ensures var es := WithEntry(Entries(seq(RECORD_SIZE * count, _ => 0)), 0, NewEntry([], sector));
            TableOk(es) && Table(es) == map[] && |es| == count
  {
    var zeros: seq<Byte> := seq(RECORD_SIZE * count, _ => 0);
    var es := WithEntry(Entries(zeros), 0, NewEntry([], sector));
    assert |zeros| / RECORD_SIZE == count;
    forall k | 0 < k < |es|
      ensures !Binds(es, k)
    {
      assert es[k] == DecodeRecord(Chunk(zeros, k));
    }
  }
}
