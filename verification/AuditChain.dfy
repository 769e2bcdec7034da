/**
 The audit hash chain of crates/store/src/lib.rs. SHA-256 is a parameter: nothing about it is
 assumed, and the theorems say "identical, or here is a collision". The table is the sequence of its
 rows in ascending `seq` order, which is how both readers select them.
 */
module AuditChain {
  import opened Bytes
  import opened Seqs
  import opened Text

  /** A digest function on text. */
  type Digest = string -> seq<Byte>

  const GENESIS_HASH: string := Zeros64()

  function Zeros64(): (s: string)
    ensures |s| == 64 && forall i :: 0 <= i < 64 ==> s[i] == '0'
    ensures Free(s, '\n')
  {
    seq(64, i => '0')
  }

  datatype Row = Row(seqNo: int, at: string, kind: string, data: string, prevHash: string, hash: string)

  /** The hashed text: five fields, each followed by a newline, the last one too. */
  function Preimage(prevHash: string, seqNo: int, at: string, kind: string, data: string): string {
    prevHash + ['\n'] + (Show(seqNo) + ['\n'] + (at + ['\n'] + (kind + ['\n'] + (data + ['\n']))))
  }

  function AuditHash(h: Digest, prevHash: string, seqNo: int, at: string, kind: string, data: string): string {
    Hex(h(Preimage(prevHash, seqNo, at, kind, data)))
  }

  /** The hasher is fed part by part. */
  method HashParts(h: Digest, prevHash: string, seqNo: int, at: string, kind: string, data: string)
    returns (hash: string)
    ensures hash == Hex(h(prevHash + "\n" + Show(seqNo) + "\n" + at + "\n" + kind + "\n" + data + "\n"))
    ensures hash == AuditHash(h, prevHash, seqNo, at, kind, data)
  {
    PreimageExactly(prevHash, seqNo, at, kind, data);
    var parts := [prevHash, Show(seqNo), at, kind, data];
    var fed := "";
    for i := 0 to |parts|
      invariant fed == Terminated(parts[..i])
    {
      TakeNext(parts, i);
      TerminatedSnoc(parts[..i], parts[i]);
      fed := fed + parts[i] + "\n";
    }
    assert parts[..5] == parts;
    TerminatedIsPreimage(prevHash, seqNo, at, kind, data);
    hash := Hex(h(fed));
  }

  /** The hashed text, written from left to right. */
  lemma PreimageExactly(prevHash: string, seqNo: int, at: string, kind: string, data: string)
    ensures Preimage(prevHash, seqNo, at, kind, data) ==
            prevHash + "\n" + Show(seqNo) + "\n" + at + "\n" + kind + "\n" + data + "\n"
  {
    var text := data + "\n";
    Assoc(kind + "\n", data, "\n");
    Assoc(at + "\n", kind + "\n", text);
    Assoc(Show(seqNo) + "\n", at + "\n", kind + "\n" + text);
    Assoc(prevHash + "\n", Show(seqNo) + "\n", at + "\n" + (kind + "\n" + text));
    hide Show;
    assert Preimage(prevHash, seqNo, at, kind, data) ==
           prevHash + "\n" + (Show(seqNo) + "\n" + (at + "\n" + (kind + "\n" + text)));
  }

  ghost function Terminated(parts: seq<string>): string {
    if parts == [] then "" else parts[0] + "\n" + Terminated(parts[1..])
  }

  lemma {:induction false} TerminatedSnoc(parts: seq<string>, last: string)
    ensures Terminated(parts + [last]) == Terminated(parts) + last + "\n"
  {
    if parts == [] {
      assert (parts + [last])[1..] == [];
    } else {
      TerminatedSnoc(parts[1..], last);
      assert (parts + [last])[1..] == parts[1..] + [last];
      Assoc(parts[0] + "\n", Terminated(parts[1..]), last + "\n");
      Assoc(Terminated(parts[1..]), last, "\n");
      Assoc(Terminated(parts), last, "\n");
    }
  }

  lemma TerminatedIsPreimage(prevHash: string, seqNo: int, at: string, kind: string, data: string)
    ensures Terminated([prevHash, Show(seqNo), at, kind, data]) == Preimage(prevHash, seqNo, at, kind, data)
  {
    TerminatedStep(data, []);
    TerminatedStep(kind, [data]);
    TerminatedStep(at, [kind, data]);
    TerminatedStep(Show(seqNo), [at, kind, data]);
    TerminatedStep(prevHash, [Show(seqNo), at, kind, data]);
    AppendNil(data + "\n");
    hide Terminated;
    assert [data] + [] == [data];
    assert [kind] + [data] == [kind, data];
    assert [at] + [kind, data] == [at, kind, data];
    assert [Show(seqNo)] + [at, kind, data] == [Show(seqNo), at, kind, data];
    assert [prevHash] + [Show(seqNo), at, kind, data] == [prevHash, Show(seqNo), at, kind, data];
  }

  lemma TerminatedStep(first: string, rest: seq<string>)
    ensures Terminated([first] + rest) == first + "\n" + Terminated(rest)
    ensures Terminated([]) == ""
  {
    assert ([first] + rest)[1..] == rest;
  }

  // ---- the chain ----

  function PrevOf(rows: seq<Row>, i: nat): string
    requires i <= |rows|
  {
    if i == 0 then GENESIS_HASH else rows[i - 1].hash
  }

  /** Row `i` sits where it should and its hash is the hash of its own contents. */
  predicate RowOk(h: Digest, rows: seq<Row>, i: nat)
    requires i < |rows|
  {
    var r := rows[i];
    && r.seqNo == i + 1
    && r.prevHash == PrevOf(rows, i)
    && r.hash == AuditHash(h, r.prevHash, r.seqNo, r.at, r.kind, r.data)
  }

  predicate Verifies(h: Digest, rows: seq<Row>) {
    forall i :: 0 <= i < |rows| ==> RowOk(h, rows, i)
  }

  datatype Verification =
    | Intact(entries: nat)
    | Broken(atSeq: int, expected: string, found: string)

  /** What a `Broken` answer must say about the first bad row. */
  predicate Explains(h: Digest, rows: seq<Row>, i: nat, v: Verification)
    requires i < |rows|
  {
    var r := rows[i];
    v.Broken? && v.atSeq == r.seqNo &&
    if r.seqNo != i + 1 then
      v.expected == "seq " + Show(i + 1) && v.found == "seq " + Show(r.seqNo)
    else if r.prevHash != PrevOf(rows, i) then
      v.expected == PrevOf(rows, i) && v.found == r.prevHash
    else
      v.expected == AuditHash(h, r.prevHash, r.seqNo, r.at, r.kind, r.data) && v.found == r.hash
      && v.expected != v.found
  }

  /** `verify_audit_chain`: intact means every row checks out, otherwise the first bad row is named. */
  method VerifyAuditChain(h: Digest, rows: seq<Row>) returns (v: Verification)
    ensures v.Intact? ==> Verifies(h, rows) && v.entries == |rows|
    ensures v.Broken? ==>
              exists i :: 0 <= i < |rows| && !RowOk(h, rows, i) && Explains(h, rows, i, v)
                          && forall k :: 0 <= k < i ==> RowOk(h, rows, k)
  {
    var expectedPrev := GENESIS_HASH;
    var count := 0;
    for i := 0 to |rows|
      invariant count == i && expectedPrev == PrevOf(rows, i)
      invariant forall k :: 0 <= k < i ==> RowOk(h, rows, k)
    {
      var r := rows[i];
      var wantSeq := i + 1;
      if r.seqNo != wantSeq {
        v := Broken(r.seqNo, "seq " + Show(wantSeq), "seq " + Show(r.seqNo));
        assert Explains(h, rows, i, v);
        return;
      }
      if r.prevHash != expectedPrev {
        v := Broken(r.seqNo, expectedPrev, r.prevHash);
        assert Explains(h, rows, i, v);
        return;
      }
      var recomputed := HashParts(h, r.prevHash, r.seqNo, r.at, r.kind, r.data);
      if recomputed != r.hash {
        v := Broken(r.seqNo, recomputed, r.hash);
        assert Explains(h, rows, i, v);
        return;
      }
      expectedPrev := r.hash;
      count := count + 1;
    }
    v := Intact(count);
  }

  /** The row `append_audit` adds to a table. */
  function NextRow(h: Digest, rows: seq<Row>, at: string, kind: string, data: string): Row {
    var (seqNo, prev) :=
      if rows == [] then (1, GENESIS_HASH) else (rows[|rows| - 1].seqNo + 1, rows[|rows| - 1].hash);
    Row(seqNo, at, kind, data, prev, AuditHash(h, prev, seqNo, at, kind, data))
  }

  class Store {
    var auditLog: seq<Row>

    constructor ()
      ensures auditLog == []
    {
      auditLog := [];
    }

    method AppendAudit(h: Digest, at: string, kind: string, data: string) returns (row: Row)
      modifies this
      ensures row == NextRow(h, old(auditLog), at, kind, data)
      ensures auditLog == old(auditLog) + [row]
    {
      var seqNo, prevHash := 1, GENESIS_HASH;
      if |auditLog| > 0 {
        var last := auditLog[|auditLog| - 1];
        seqNo, prevHash := last.seqNo + 1, last.hash;
      }
      var hash := HashParts(h, prevHash, seqNo, at, kind, data);
      row := Row(seqNo, at, kind, data, prevHash, hash);
      auditLog := auditLog + [row];
    }

    /** The last `n` rows, oldest first; a negative limit is no limit in SQLite. */
    method AuditTail(n: int) returns (out: seq<Row>)
      ensures |out| == if 0 <= n < |auditLog| then n else |auditLog|
      ensures exists older :: auditLog == older + out
      ensures out == Tail(auditLog, n)
    {
      var newestFirst := [];
      var k := |auditLog|;
      while k > 0 && (n < 0 || |newestFirst| < n)
        invariant 0 <= k <= |auditLog| && |newestFirst| == |auditLog| - k && (n >= 0 ==> |newestFirst| <= n)
        invariant forall i :: 0 <= i < |newestFirst| ==> newestFirst[i] == auditLog[|auditLog| - 1 - i]
      {
        k := k - 1;
        newestFirst := newestFirst + [auditLog[k]];
      }
      out := [];
      for i := 0 to |newestFirst|
        invariant out == auditLog[|auditLog| - i..]
      {
        out := [newestFirst[i]] + out;
      }
      assert auditLog == auditLog[..k] + out;
    }
  }

  function Tail(rows: seq<Row>, n: int): seq<Row> {
    if n < 0 || |rows| <= n then rows else rows[|rows| - n..]
  }

  // ---- appending ----

  /** One call of `append_audit`. */
  datatype Entry = Entry(at: string, kind: string, data: string)

  /** The table that a run of appends builds. */
  function Appended(h: Digest, entries: seq<Entry>): seq<Row> {
    if entries == [] then []
    else
      var rows := Appended(h, entries[..|entries| - 1]);
      var e := entries[|entries| - 1];
      rows + [NextRow(h, rows, e.at, e.kind, e.data)]
  }

  lemma PrefixVerifies(h: Digest, rows: seq<Row>, n: nat)
    requires Verifies(h, rows) && n <= |rows|
    ensures Verifies(h, rows[..n])
  {
    forall i | 0 <= i < n
      ensures RowOk(h, rows[..n], i)
    {
      assert RowOk(h, rows, i);
    }
  }

  lemma AppendVerifies(h: Digest, rows: seq<Row>, at: string, kind: string, data: string)
    requires Verifies(h, rows)
    ensures Verifies(h, rows + [NextRow(h, rows, at, kind, data)])
  {
    var more := rows + [NextRow(h, rows, at, kind, data)];
    if rows != [] { assert RowOk(h, rows, |rows| - 1); }
    forall i | 0 <= i < |more|
      ensures RowOk(h, more, i)
    {
      if i < |rows| {
        assert RowOk(h, rows, i);
        assert PrevOf(more, i) == PrevOf(rows, i);
      }
    }
  }

  /** A table built by appending holds its entries in order, and its first row follows 64 noughts. */
  lemma {:induction false} AppendedHolds(h: Digest, entries: seq<Entry>, i: nat)
    requires i < |entries|
    ensures |Appended(h, entries)| == |entries|
    ensures var r := Appended(h, entries)[i]; Entry(r.at, r.kind, r.data) == entries[i]
    ensures Appended(h, entries)[0].seqNo == 1 && Appended(h, entries)[0].prevHash == Zeros64()
  {
    hide AuditHash;
    var init := entries[..|entries| - 1];
    if init == [] {
      assert Appended(h, init) == [];
    } else {
      AppendedHolds(h, init, if i < |init| then i else 0);
    }
  }

  /** Every table built by appending verifies, and so does every prefix of it. */
  lemma {:induction false} AppendedVerifies(h: Digest, entries: seq<Entry>, n: nat)
    ensures |Appended(h, entries)| == |entries| && Verifies(h, Appended(h, entries))
    ensures n <= |entries| ==> Verifies(h, Appended(h, entries)[..n])
  {
    if entries != [] {
      var init, e := entries[..|entries| - 1], entries[|entries| - 1];
      AppendedVerifies(h, init, 0);
      AppendVerifies(h, Appended(h, init), e.at, e.kind, e.data);
    }
    if n <= |entries| { PrefixVerifies(h, Appended(h, entries), n); }
  }

  // ---- the head hash determines the table ----

  predicate CleanRow(r: Row) {
    Free(r.at, '\n') && Free(r.kind, '\n') && Free(r.data, '\n')
  }

  /** No newline in any timestamp, kind or payload, as the store's callers guarantee. */
  predicate Clean(rows: seq<Row>) {
    forall i :: 0 <= i < |rows| ==> CleanRow(rows[i])
  }

  function RowPreimage(r: Row): string {
    Preimage(r.prevHash, r.seqNo, r.at, r.kind, r.data)
  }

  /** Two rows of the tables whose different texts have the same digest. */
  ghost predicate Collision(h: Digest, a: seq<Row>, b: seq<Row>) {
    exists i, j :: 0 <= i < |a| && 0 <= j < |b|
                   && RowPreimage(a[i]) != RowPreimage(b[j]) && h(RowPreimage(a[i])) == h(RowPreimage(b[j]))
  }

  /** How often the separator occurs. */
  function Newlines(s: string): nat {
    if s == "" then 0 else (if s[0] == '\n' then 1 else 0) + Newlines(s[1..])
  }

  lemma {:induction false} NewlinesConcat(a: string, b: string)
    ensures Newlines(a + b) == Newlines(a) + Newlines(b)
  {
    if a == "" {
      assert a + b == b;
    } else {
      NewlinesConcat(a[1..], b);
      assert (a + b)[1..] == a[1..] + b;
    }
  }

  lemma {:induction false} FreeIffNoNewlines(s: string)
    ensures Free(s, '\n') <==> Newlines(s) == 0
  {
    if s != "" {
      FreeIffNoNewlines(s[1..]);
      assert s == [s[0]] + s[1..];
    }
  }

  /** The three free-text fields of a row, as they stand at the end of the hashed text. */
  function Fields(at: string, kind: string, data: string): string {
    at + ['\n'] + (kind + ['\n'] + (data + ['\n']))
  }

  lemma FieldsNewlines(at: string, kind: string, data: string)
    ensures Newlines(Fields(at, kind, data)) == Newlines(at) + Newlines(kind) + Newlines(data) + 3
  {
    NewlinesConcat(at + ['\n'], kind + ['\n'] + (data + ['\n']));
    NewlinesConcat(at, ['\n']);
    NewlinesConcat(kind + ['\n'], data + ['\n']);
    NewlinesConcat(kind, ['\n']);
    NewlinesConcat(data, ['\n']);
    assert Newlines("\n") == 1;
  }

  /** Clean fields are recovered from the hashed text, even against fields that hold anything. */
  lemma FieldsUnique(a: Row, b: Row)
    requires CleanRow(a) && Fields(a.at, a.kind, a.data) == Fields(b.at, b.kind, b.data)
    ensures a.at == b.at && a.kind == b.kind && a.data == b.data
  {
    FieldsNewlines(a.at, a.kind, a.data);
    FieldsNewlines(b.at, b.kind, b.data);
    FreeIffNoNewlines(a.at);
    FreeIffNoNewlines(a.kind);
    FreeIffNoNewlines(a.data);
    FreeIffNoNewlines(b.at);
    FreeIffNoNewlines(b.kind);
    FreeIffNoNewlines(b.data);
    FirstFieldIsUnique(a.at, b.at, a.kind + ['\n'] + (a.data + ['\n']), b.kind + ['\n'] + (b.data + ['\n']), '\n');
    FirstFieldIsUnique(a.kind, b.kind, a.data + ['\n'], b.data + ['\n'], '\n');
    Splits(a.data, ['\n']);
    Splits(b.data, ['\n']);
  }

  lemma PreimageUnique(a: Row, b: Row)
    requires CleanRow(a) && Free(a.prevHash, '\n') && Free(b.prevHash, '\n')
    requires RowPreimage(a) == RowPreimage(b)
    ensures a.prevHash == b.prevHash && a.seqNo == b.seqNo
    ensures a.at == b.at && a.kind == b.kind && a.data == b.data
  {
    ShowHasNoNewline(a.seqNo);
    ShowHasNoNewline(b.seqNo);
    var fa, fb := Fields(a.at, a.kind, a.data), Fields(b.at, b.kind, b.data);
    FirstFieldIsUnique(a.prevHash, b.prevHash, Show(a.seqNo) + ['\n'] + fa, Show(b.seqNo) + ['\n'] + fb, '\n');
    FirstFieldIsUnique(Show(a.seqNo), Show(b.seqNo), fa, fb, '\n');
    ShowInjective(a.seqNo, b.seqNo);
    FieldsUnique(a, b);
  }

  lemma PrevHashIsClean(h: Digest, rows: seq<Row>, i: nat)
    requires Verifies(h, rows) && i < |rows|
    ensures Free(rows[i].prevHash, '\n')
  {
    assert RowOk(h, rows, i);
    if i > 0 { assert RowOk(h, rows, i - 1); }
  }

  /** Equal hashes at two positions: same position and same rows up to it, or a collision. */
  lemma {:induction false} HashDeterminesPrefix(h: Digest, a: seq<Row>, b: seq<Row>, i: nat, j: nat)
    requires Verifies(h, a) && Verifies(h, b) && Clean(a)
    requires i < |a| && j < |b| && a[i].hash == b[j].hash
    ensures (i == j && a[..i + 1] == b[..j + 1]) || Collision(h, a, b)
    decreases i
  {
    assert RowOk(h, a, i) && RowOk(h, b, j);
    HexInjective(h(RowPreimage(a[i])), h(RowPreimage(b[j])));
    hide Preimage;
    if RowPreimage(a[i]) == RowPreimage(b[j]) {
      PrevHashIsClean(h, a, i);
      PrevHashIsClean(h, b, j);
      PreimageUnique(a[i], b[j]);
      assert i == j && a[i] == b[i];
      if i > 0 {
        HashDeterminesPrefix(h, a, b, i - 1, i - 1);
      }
      TakeNext(a, i);
      TakeNext(b, i);
    }
  }

  function Head(rows: seq<Row>): string
    requires rows != []
  {
    rows[|rows| - 1].hash
  }

  /**
   Two verifying tables with the same head hash are identical row for row, length included, unless
   they exhibit a collision of the hash. Only one of them has to be free of newlines.
   */
  lemma HeadDeterminesTable(h: Digest, a: seq<Row>, b: seq<Row>)
    requires a != [] && b != [] && Verifies(h, a) && Verifies(h, b) && Clean(a)
    requires Head(a) == Head(b)
    ensures a == b || Collision(h, a, b)
  {
    HashDeterminesPrefix(h, a, b, |a| - 1, |b| - 1);
    assert a[..|a|] == a && b[..|b|] == b;
  }

  // ---- and it does so only without newlines ----

  /** Where `c` first occurs. */
  function IndexOf(s: string, c: char): (i: nat)
    requires c in s
    ensures i < |s| && s[i] == c
  {
    if s[0] == c then 0 else 1 + IndexOf(s[1..], c)
  }

  /** The same hashed text, cut into fields at another newline. */
  function Recut(r: Row): Row
    requires !CleanRow(r)
  {
    if '\n' in r.at then
      var i := IndexOf(r.at, '\n');
      r.(at := r.at[..i], kind := r.at[i + 1..] + ['\n'] + r.kind)
    else if '\n' in r.kind then
      var i := IndexOf(r.kind, '\n');
      r.(at := r.at + ['\n'] + r.kind[..i], kind := r.kind[i + 1..])
    else
      var i := IndexOf(r.data, '\n');
      r.(kind := r.kind + ['\n'] + r.data[..i], data := r.data[i + 1..])
  }

  lemma CutAt(s: string, i: nat)
    requires i < |s|
    ensures s == s[..i] + [s[i]] + s[i + 1..]
  {}

  lemma Reassociate(a: string, b: string, c: string)
    ensures a + ['\n'] + (b + ['\n'] + c) == (a + ['\n'] + b) + ['\n'] + c
  {}

  lemma RecutKeepsText(r: Row)
    requires !CleanRow(r)
    ensures Recut(r) != r && RowPreimage(Recut(r)) == RowPreimage(r)
  {
    hide Show;
    var q := Recut(r);
    assert Fields(q.at, q.kind, q.data) == Fields(r.at, r.kind, r.data) by {
      if '\n' in r.at {
        CutAt(r.at, IndexOf(r.at, '\n'));
        Reassociate(q.at, r.at[IndexOf(r.at, '\n') + 1..], r.kind + ['\n'] + (r.data + ['\n']));
        Reassociate(r.at[IndexOf(r.at, '\n') + 1..], r.kind, r.data + ['\n']);
      } else if '\n' in r.kind {
        var i := IndexOf(r.kind, '\n');
        CutAt(r.kind, i);
        Reassociate(r.at, r.kind[..i], q.kind + ['\n'] + (r.data + ['\n']));
        Reassociate(r.kind[..i], q.kind, r.data + ['\n']);
      } else {
        var i := IndexOf(r.data, '\n');
        CutAt(r.data, i);
        Reassociate(r.kind, r.data[..i], q.data + ['\n']);
        Reassociate(r.data[..i], q.data, "");
      }
    }
    assert RowPreimage(q) == q.prevHash + ['\n'] + (Show(q.seqNo) + ['\n'] + Fields(q.at, q.kind, q.data));
  }

  lemma SameTextSameChain(h: Digest, a: seq<Row>, i: nat, q: Row, k: nat)
    requires Verifies(h, a) && i < |a| && k < |a|
    requires q.prevHash == a[i].prevHash && q.seqNo == a[i].seqNo && q.hash == a[i].hash
    requires RowPreimage(q) == RowPreimage(a[i])
    ensures RowOk(h, a[i := q], k) && RowPreimage(a[i := q][k]) == RowPreimage(a[k])
  {
    assert RowOk(h, a, k) && RowOk(h, a, i);
    assert PrevOf(a[i := q], k) == PrevOf(a, k);
    hide Preimage;
  }

  lemma RecutKeepsLinks(r: Row)
    requires !CleanRow(r)
    ensures Recut(r).seqNo == r.seqNo && Recut(r).prevHash == r.prevHash && Recut(r).hash == r.hash
  {
    hide IndexOf;
  }

  /**
   The other direction: a verifying table with a newline in some row has a different table beside it
   that verifies with the same head hash, whatever the hash function is.
   */
  lemma NewlineMakesTwin(h: Digest, a: seq<Row>, i: nat) returns (b: seq<Row>)
    requires Verifies(h, a) && i < |a| && !CleanRow(a[i])
    ensures b != a && |b| == |a| && Verifies(h, b) && Head(b) == Head(a)
    ensures forall k :: 0 <= k < |a| ==> RowPreimage(b[k]) == RowPreimage(a[k])
  {
    hide RowPreimage, CleanRow, RowOk;
    RecutKeepsText(a[i]);
    RecutKeepsLinks(a[i]);
    b := a[i := Recut(a[i])];
    hide Recut;
    forall k | 0 <= k < |a|
      ensures RowOk(h, b, k) && RowPreimage(b[k]) == RowPreimage(a[k])
    {
      SameTextSameChain(h, a, i, b[i], k);
    }
    assert b[i] != a[i];
  }
}
