/**
 The directory (filesys/directory): a fixed table of entries, each naming a file
 and the sector of its header. File names count only up to their ninth character.
 */
module Directories {
  import opened Words
  import opened SynchDisks
  import opened FileHeaders
  import opened OpenFiles

  const FILE_NAME_MAX_LEN := 9

  // ------------------------------------------------------- string library

  /** The first `n` characters of the C string that starts with the bytes `s`. */
  function Truncated(s: seq<byte>, n: nat): seq<byte>
  {
    if n == 0 || s == [] || s[0] == 0 then [] else [s[0]] + Truncated(s[1..], n - 1)
  }

  /** `strncmp(a, b, n) == 0` */
  predicate SameString(a: seq<byte>, b: seq<byte>, n: nat)
  {
    if n == 0 then true
    else
      var ca := if a == [] then 0 else a[0];
      var cb := if b == [] then 0 else b[0];
      ca == cb && (ca == 0 || SameString(a[1..], b[1..], n - 1))
  }

  /** The `n` bytes that `strncpy` writes: the string, then as many zeros as are missing. */
  function Padded(s: seq<byte>, n: nat): (r: seq<byte>)
    ensures |r| == n
    decreases n
  {
    if n == 0 then []
    else if s == [] || s[0] == 0 then [0] + Padded([], n - 1)
    else [s[0]] + Padded(s[1..], n - 1)
  }

  lemma {:induction false} SameStringTruncated(a: seq<byte>, b: seq<byte>, n: nat)
    ensures SameString(a, b, n) <==> Truncated(a, n) == Truncated(b, n)
  {
    if n > 0 && a != [] && b != [] && a[0] == b[0] != 0 {
      SameStringTruncated(a[1..], b[1..], n - 1);
      assert Truncated(a, n)[1..] == Truncated(a[1..], n - 1);
      assert Truncated(b, n)[1..] == Truncated(b[1..], n - 1);
    }
  }

  lemma {:induction false} TruncatedPadded(s: seq<byte>, rest: seq<byte>, n: nat)
    ensures Truncated(Padded(s, n) + rest, n) == Truncated(s, n)
  {
    if n > 0 && s != [] && s[0] != 0 {
      TruncatedPadded(s[1..], rest, n - 1);
      assert (Padded(s, n) + rest)[1..] == Padded(s[1..], n - 1) + rest;
    }
  }

  // -------------------------------------------------------------- entries

  /** An entry with the bytes the compiler leaves between its fields. */
  datatype DirectoryEntry = DirectoryEntry(inUse: bool, gap: seq<byte>, sector: int32, name: seq<byte>, tail: seq<byte>)

  type Entry = e: DirectoryEntry | |e.gap| == 3 && |e.name| == FILE_NAME_MAX_LEN + 1 && |e.tail| == 2
    witness DirectoryEntry(false, [0, 0, 0], 0, [0, 0, 0, 0, 0, 0, 0, 0, 0, 0], [0, 0])

  /** What identifies a file: the significant part of its name. */
  type Key = seq<byte>

  function KeyOf(name: seq<byte>): Key
  {
    Truncated(name, FILE_NAME_MAX_LEN)
  }

  function EncodeEntry(e: Entry): (b: seq<byte>)
    ensures |b| == 20
  {
    [if e.inUse then 1 else 0] + e.gap + EncodeWords([ToWord(e.sector)]) + e.name + e.tail
  }

  function DecodeEntry(b: seq<byte>): Entry
    requires |b| == 20
  {
    DirectoryEntry(b[0] != 0, b[1..4], ToInt(WordAt(b[4..8], 0)), b[8..18], b[18..20])
  }

  lemma DecodeEncodeEntry(e: Entry)
    ensures DecodeEntry(EncodeEntry(e)) == e
  {
    var b := EncodeEntry(e);
    assert b[1..4] == e.gap && b[8..18] == e.name && b[18..20] == e.tail;
    assert b[4..8] == EncodeWords([ToWord(e.sector)]);
    WordAtEncoded([ToWord(e.sector)], 0);
  }

  /** The flag is at offset 0 of an entry, the sector at 4 and the name at 8. */
  lemma EntryLayout(e: Entry)
    ensures EncodeEntry(e)[0] == (if e.inUse then 1 else 0) && EncodeEntry(e)[8..18] == e.name
    ensures WordAt(EncodeEntry(e), 1) == ToWord(e.sector)
  {
    var b, w := EncodeEntry(e), EncodeWords([ToWord(e.sector)]);
    assert b[8..18] == e.name && b[4] == w[0] && b[5] == w[1] && b[6] == w[2] && b[7] == w[3];
    WordAtEncoded([ToWord(e.sector)], 0);
  }

  /** The bytes a table of entries occupies in memory. */
  function EncodeTable(t: seq<Entry>): (b: seq<byte>)
    ensures |b| == 20 * |t|
  {
    if t == [] then [] else EncodeEntry(t[0]) + EncodeTable(t[1..])
  }

  function DecodeTable(b: seq<byte>, n: nat): (t: seq<Entry>)
    requires |b| == 20 * n
    ensures |t| == n
  {
    if n == 0 then [] else [DecodeEntry(b[..20])] + DecodeTable(b[20..], n - 1)
  }

  lemma {:induction false} TableLayout(t: seq<Entry>, i: nat)
    requires i < |t|
    ensures EncodeTable(t)[20 * i..20 * i + 20] == EncodeEntry(t[i])
  {
    if i > 0 {
      TableLayout(t[1..], i - 1);
      var b := EncodeTable(t[1..]);
      assert EncodeTable(t)[20 * i..20 * i + 20] == b[20 * (i - 1)..20 * (i - 1) + 20];
    }
  }

  lemma {:induction false} DecodeEncodeTable(t: seq<Entry>)
    ensures DecodeTable(EncodeTable(t), |t|) == t
  {
    if t != [] {
      var b := EncodeTable(t);
      assert b[..20] == EncodeEntry(t[0]) && b[20..] == EncodeTable(t[1..]);
      DecodeEncodeEntry(t[0]);
      DecodeEncodeTable(t[1..]);
    }
  }

  // ---------------------------------------------------- a table as a map

  predicate Lists(e: Entry, key: Key)
  {
    e.inUse && KeyOf(e.name) == key
  }

  ghost predicate UniqueNames(t: seq<Entry>)
  {
    forall i, j | 0 <= i < j < |t| && t[i].inUse && t[j].inUse :: KeyOf(t[i].name) != KeyOf(t[j].name)
  }

  /** The directory as a map from names to header sectors. */
  ghost function DirMap(t: seq<Entry>): map<Key, int>
  {
    if t == [] then map[]
    else
      var n := |t| - 1;
      if t[n].inUse then DirMap(t[..n])[KeyOf(t[n].name) := t[n].sector] else DirMap(t[..n])
  }

  lemma {:induction false} DirMapLists(t: seq<Entry>, key: Key)
    ensures key in DirMap(t) <==> exists i :: 0 <= i < |t| && Lists(t[i], key)
  {
    if t != [] {
      var n := |t| - 1;
      var s := t[..n];
      DirMapLists(s, key);
      if key in DirMap(s) {
        var i :| 0 <= i < |s| && Lists(s[i], key);
        assert Lists(t[i], key);
      } else if Lists(t[n], key) {
      } else {
        assert forall i | 0 <= i < n :: t[i] == s[i];
      }
    }
  }

  lemma {:induction false} DirMapAt(t: seq<Entry>, i: nat)
    requires UniqueNames(t) && i < |t| && t[i].inUse
    ensures KeyOf(t[i].name) in DirMap(t) && DirMap(t)[KeyOf(t[i].name)] == t[i].sector
  {
    var n := |t| - 1;
    if i < n {
      assert t[..n][i] == t[i];
      DirMapAt(t[..n], i);
    }
  }

  lemma LastIsNew(t: seq<Entry>)
    requires UniqueNames(t) && t != [] && t[|t| - 1].inUse
    ensures KeyOf(t[|t| - 1].name) !in DirMap(t[..|t| - 1])
  {
    DirMapLists(t[..|t| - 1], KeyOf(t[|t| - 1].name));
  }

  lemma {:induction false} DirMapAdd(t: seq<Entry>, i: nat, e: Entry)
    requires i < |t| && !t[i].inUse
    requires e.inUse && KeyOf(e.name) !in DirMap(t)
    ensures DirMap(t[i := e]) == DirMap(t)[KeyOf(e.name) := e.sector]
  {
    var n := |t| - 1;
    var t' := t[i := e];
    if i == n {
      assert t'[..n] == t[..n];
    } else {
      assert t'[..n] == t[..n][i := e];
      DirMapAdd(t[..n], i, e);
    }
  }

  lemma UniqueNamesAdd(t: seq<Entry>, i: nat, e: Entry)
    requires UniqueNames(t) && i < |t| && KeyOf(e.name) !in DirMap(t)
    ensures UniqueNames(t[i := e])
  {
    DirMapLists(t, KeyOf(e.name));
    forall j | 0 <= j < |t| && t[j].inUse
      ensures KeyOf(t[j].name) != KeyOf(e.name)
    {
      assert !Lists(t[j], KeyOf(e.name));
    }
  }

  lemma {:induction false} DirMapRemove(t: seq<Entry>, i: nat)
    requires UniqueNames(t) && i < |t| && t[i].inUse
    ensures DirMap(t[i := t[i].(inUse := false)]) == DirMap(t) - {KeyOf(t[i].name)}
  {
    var n := |t| - 1;
    var e: Entry := t[i].(inUse := false);
    if i == n {
      LastIsNew(t);
      assert t[i := e][..n] == t[..n];
    } else {
      assert t[i := e][..n] == t[..n][i := e];
      DirMapRemove(t[..n], i);
    }
  }

  /** A table is full exactly when it lists as many names as it has entries. */
  lemma {:induction false} DirMapSize(t: seq<Entry>)
    requires UniqueNames(t)
    ensures |DirMap(t)| <= |t|
    ensures |DirMap(t)| == |t| <==> forall i | 0 <= i < |t| :: t[i].inUse
  {
    if t != [] {
      var n := |t| - 1;
      var s := t[..n];
      DirMapSize(s);
      if t[n].inUse {
        LastIsNew(t);
        assert forall i | 0 <= i < n :: s[i] == t[i];
      }
    }
  }

  /** The entry `i`, the first that was free, is in use now, and the others are as before. */
  ghost predicate FirstFreeAt(before: seq<Entry>, after: seq<Entry>, i: nat)
  {
    && i < |before| == |after| && !before[i].inUse && after[i].inUse && after == before[i := after[i]]
    && forall j | 0 <= j < i :: before[j].inUse
  }

  ghost predicate FirstFreeTaken(before: seq<Entry>, after: seq<Entry>)
  {
    exists i: nat :: FirstFreeAt(before, after, i)
  }

  // ------------------------------------------------------------ the class

  class Directory {
    const table: array<Entry>

    /** An empty directory; what its unused entries hold is arbitrary. */
    constructor (size: nat)
      ensures fresh(table) && table.Length == size
      ensures forall i | 0 <= i < size :: !table[i].inUse
    {
      table := new Entry[size];
      new;
      for i := 0 to size
        invariant forall j | 0 <= j < i :: !table[j].inUse
      {
        table[i] := table[i].(inUse := false);
      }
    }

    /** Reads the table from a file; a short file replaces only the front of it. */
    method FetchFrom(file: OpenFile)
      requires file.Valid()
      modifies table
      ensures var n := Clip(file.hdr.numBytes, 20 * table.Length, 0);
              table[..] == DecodeTable(file.Contents()[..n] + EncodeTable(old(table[..]))[n..], table.Length)
    {
      var raw := ReadOver(file, EncodeTable(table[..]));
      SetTable(DecodeTable(raw, table.Length));
    }

    method SetTable(entries: seq<Entry>)
      requires |entries| == table.Length
      modifies table
      ensures table[..] == entries
    {
      forall i | 0 <= i < table.Length {
        table[i] := entries[i];
      }
    }

    method WriteBack(file: OpenFile)
      requires file.Valid()
      modifies file.disk
      ensures file.Valid()
      ensures var n := Clip(file.hdr.numBytes, 20 * table.Length, 0);
              file.Contents() == Splice(old(file.Contents()), 0, EncodeTable(table[..])[..n])
      ensures OnlyBlocksChange(old(file.disk.sectors), file.disk.sectors, file.hdr.Value())
    {
      var _ := file.WriteAt(EncodeTable(table[..]), 20 * table.Length, 0);
    }

    method FindIndex(name: seq<byte>) returns (r: int)
      ensures -1 <= r < table.Length
      ensures r >= 0 ==> Lists(table[r], KeyOf(name)) && forall j | 0 <= j < r :: !Lists(table[j], KeyOf(name))
      ensures r == -1 ==> forall j | 0 <= j < table.Length :: !Lists(table[j], KeyOf(name))
    {
      for i := 0 to table.Length
        invariant forall j | 0 <= j < i :: !Lists(table[j], KeyOf(name))
      {
        SameStringTruncated(table[i].name, name, FILE_NAME_MAX_LEN);
        if table[i].inUse && SameString(table[i].name, name, FILE_NAME_MAX_LEN) {
          return i;
        }
      }
      return -1;
    }

    method Find(name: seq<byte>) returns (sector: int)
      requires UniqueNames(table[..])
      ensures sector == if KeyOf(name) in DirMap(table[..]) then DirMap(table[..])[KeyOf(name)] else -1
    {
      var i := FindIndex(name);
      if i != -1 {
        DirMapAt(table[..], i);
        return table[i].sector;
      }
      DirMapLists(table[..], KeyOf(name));
      return -1;
    }

    /** Adds an entry for a new name in the first unused place. */
    method Add(name: seq<byte>, newSector: int32) returns (ok: bool)
      requires UniqueNames(table[..])
      modifies table
      ensures UniqueNames(table[..])
      ensures ok <==> KeyOf(name) !in old(DirMap(table[..])) && |old(DirMap(table[..]))| < table.Length
      ensures !ok ==> table[..] == old(table[..])
      ensures ok ==> DirMap(table[..]) == old(DirMap(table[..]))[KeyOf(name) := newSector]
      ensures ok ==> FirstFreeTaken(old(table[..]), table[..])
    {
      DirMapSize(table[..]);
      DirMapLists(table[..], KeyOf(name));
      var found := FindIndex(name);
      if found != -1 {
        assert Lists(table[..][found], KeyOf(name));
        return false;
      }
      for i := 0 to table.Length
        invariant table[..] == old(table[..])
        invariant forall j | 0 <= j < i :: table[j].inUse
      {
        if !table[i].inUse {
          var e: Entry := table[i].(inUse := true, sector := newSector,
                          name := Padded(name, FILE_NAME_MAX_LEN) + table[i].name[FILE_NAME_MAX_LEN..]);
          TruncatedPadded(name, table[i].name[FILE_NAME_MAX_LEN..], FILE_NAME_MAX_LEN);
          DirMapAdd(table[..], i, e);
          UniqueNamesAdd(table[..], i, e);
          table[i] := e;
          assert table[..] == old(table[..])[i := e];
          assert FirstFreeAt(old(table[..]), table[..], i);
          return true;
        }
      }
      return false;
    }

    method Remove(name: seq<byte>) returns (ok: bool)
      requires UniqueNames(table[..])
      modifies table
      ensures UniqueNames(table[..])
      ensures ok <==> KeyOf(name) in old(DirMap(table[..]))
      ensures DirMap(table[..]) == old(DirMap(table[..])) - {KeyOf(name)}
      ensures !ok ==> table[..] == old(table[..])
    {
      DirMapLists(table[..], KeyOf(name));
      var i := FindIndex(name);
      if i == -1 {
        return false;
      }
      assert Lists(table[..][i], KeyOf(name));
      DirMapRemove(table[..], i);
      table[i] := table[i].(inUse := false);
      assert table[..] == old(table[..])[i := old(table[i]).(inUse := false)];
      return true;
    }
  }
}
