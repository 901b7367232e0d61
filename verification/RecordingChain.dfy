/** The session recording chain (scripts/faz22-remote-ops/build-view-only-viewer-termination-audit.py). */
module RecordingChain {
  import opened Json
  import opened Text

  newtype byte = x: int | 0 <= x < 256

  /** UTF-8 and SHA-256 are parameters. */
  datatype Codec = Codec(utf8: string -> seq<byte>, sha: seq<byte> -> string) {
    ghost predicate Valid() {
      forall s, t :: utf8(s) == utf8(t) ==> s == t
    }
  }

  const LIMIT: int := 0x1_0000_0000

  /** `struct.pack(">I", n)` */
  function BigEndian(n: nat): seq<byte>
    requires n < LIMIT
  {
    [(n / 256 / 256 / 256) as byte, (n / 256 / 256 % 256) as byte, (n / 256 % 256) as byte, (n % 256) as byte]
  }

  function FromBigEndian(b: seq<byte>): int
    requires |b| == 4
  {
    b[0] as int * 0x100_0000 + b[1] as int * 0x1_0000 + b[2] as int * 0x100 + b[3] as int
  }

  lemma BigEndianRoundTrip(n: nat)
    requires n < LIMIT
    ensures FromBigEndian(BigEndian(n)) == n
  {
    var a, b, c := n / 256, n / 256 / 256, n / 256 / 256 / 256;
    assert n == 256 * a + n % 256 && a == 256 * b + a % 256 && b == 256 * c + b % 256;
  }

  predicate Packable(fields: seq<seq<byte>>) {
    forall i :: 0 <= i < |fields| ==> |fields[i]| < LIMIT
  }

  /** The fields one after another, each behind its length. */
  function Packed(fields: seq<seq<byte>>): seq<byte>
    requires Packable(fields)
  {
    if fields == [] then []
    else BigEndian(|fields[0]|) + fields[0] + Packed(fields[1..])
  }

  lemma FirstFieldEqual(a: seq<byte>, x: seq<byte>, b: seq<byte>, y: seq<byte>)
    requires |a| < LIMIT && |b| < LIMIT
    requires BigEndian(|a|) + a + x == BigEndian(|b|) + b + y
    ensures a == b && x == y
  {
    var s, t := BigEndian(|a|) + a + x, BigEndian(|b|) + b + y;
    assert s[..4] == BigEndian(|a|) && t[..4] == BigEndian(|b|);
    BigEndianRoundTrip(|a|);
    BigEndianRoundTrip(|b|);
    assert s[4..4 + |a|] == a && t[4..4 + |b|] == b;
    assert s[4 + |a|..] == x && t[4 + |b|..] == y;
  }

  /** The length-prefixed encoding of a fixed number of fields is injective. */
  lemma {:induction false} PackedInjective(a: seq<seq<byte>>, b: seq<seq<byte>>)
    requires |a| == |b| && Packable(a) && Packable(b) && Packed(a) == Packed(b)
    ensures a == b
  {
    if a != [] {
      FirstFieldEqual(a[0], Packed(a[1..]), b[0], Packed(b[1..]));
      PackedInjective(a[1..], b[1..]);
      assert a == [a[0]] + a[1..] && b == [b[0]] + b[1..];
    }
  }

  /** One recorded row.  `chainId` names the session; the entry hash does not cover it. */
  datatype Row = Row(
    chainId: string,
    seq_: int,
    timestampMillis: int,
    kind: string,
    contentHash: string,
    previousHash: string,
    entryHash: string)

  const DOMAIN := "SessionRecordingChain:v1"
  const ZEROS := "0000000000000000"
  const GENESIS := ZEROS + ZEROS + ZEROS + ZEROS
  const KINDS := {"SESSION_START", "OPERATOR_COMMAND", "AGENT_OUTPUT", "POLICY_EVENT", "KILL", "SESSION_END"}

  /** `load_recording_rows` on rows with the right fields. */
  method LoadRecordingRows(rows: seq<Row>, session: string) returns (r: Option<seq<Row>>)
    ensures r == if LoadedFor(rows, session) then Some(rows) else None
  {
    var loaded := [];
    for i := 0 to |rows|
      invariant loaded == rows[..i]
      invariant forall j :: 0 <= j < i ==> rows[j].chainId == session
    {
      if rows[i].chainId != session {
        return None;
      }
      loaded := loaded + [rows[i]];
    }
    assert loaded == rows;
    if loaded == [] {
      return None;
    }
    return Some(loaded);
  }

  /** A recording is not empty and every row names the session. */
  predicate LoadedFor(rows: seq<Row>, session: string) {
    rows != [] && forall i :: 0 <= i < |rows| ==> rows[i].chainId == session
  }

  function Fields(codec: Codec, row: Row): seq<seq<byte>>
    requires row.seq_ >= 0 && row.timestampMillis >= 0
  {
    [codec.utf8(DOMAIN), codec.utf8(Decimal(row.seq_)), codec.utf8(Decimal(row.timestampMillis)),
     codec.utf8(row.kind), codec.utf8(row.contentHash), codec.utf8(row.previousHash)]
  }

  /** Row `i` of a chain whose previous row hashed to `previous` passes every check; a field too
      long to be prefixed raises. */
  predicate RowOk(codec: Codec, row: Row, i: nat, previous: string) {
    && row.seq_ == i && row.kind in KINDS
    && row.timestampMillis >= 0
    && row.contentHash != ""
    && row.previousHash == previous
    && Packable(Fields(codec, row))
    && codec.sha(Packed(Fields(codec, row))) == row.entryHash
  }

  predicate RowOkAt(codec: Codec, rows: seq<Row>, i: nat)
    requires i < |rows|
  {
    RowOk(codec, rows[i], i, if i == 0 then GENESIS else rows[i - 1].entryHash)
  }

  ghost predicate Verified(codec: Codec, rows: seq<Row>) {
    forall i :: 0 <= i < |rows| ==> RowOkAt(codec, rows, i)
  }

  /** The loop of `verify_recording_chain`, which carries the previous entry hash. */
  method VerifyRecordingChain(codec: Codec, rows: seq<Row>) returns (ok: bool)
    ensures ok <==> Verified(codec, rows)
  {
    var previous := GENESIS;
    for i := 0 to |rows|
      invariant previous == if i == 0 then GENESIS else rows[i - 1].entryHash
      invariant forall j :: 0 <= j < i ==> RowOkAt(codec, rows, j)
    {
      if !RowOk(codec, rows[i], i, previous) {
        assert !RowOkAt(codec, rows, i);
        return false;
      }
      previous := rows[i].entryHash;
    }
    return true;
  }

  // ----- the bytes and the rows, spelled out

  /** A text behind the four bytes of its length, the most significant first. */
  function Prefixed(codec: Codec, text: string): seq<byte>
    requires |codec.utf8(text)| < LIMIT
  {
    var n := |codec.utf8(text)|;
    [(n / 0x100_0000) as byte, (n / 0x1_0000 % 0x100) as byte, (n / 0x100 % 0x100) as byte, (n % 0x100) as byte]
    + codec.utf8(text)
  }

  lemma PrefixIs(n: nat)
    requires n < LIMIT
    ensures BigEndian(n) ==
            [(n / 0x100_0000) as byte, (n / 0x1_0000 % 0x100) as byte, (n / 0x100 % 0x100) as byte, (n % 0x100) as byte]
  {
    var a, b := n / 256, n / 256 / 256;
    assert n == 256 * a + n % 256 && a == 256 * b + a % 256;
    assert n == 0x1_0000 * b + 256 * (a % 256) + n % 256;
    assert n / 0x1_0000 == b;
    var c := b / 256;
    assert b == 256 * c + b % 256;
    assert n == 0x100_0000 * c + 0x1_0000 * (b % 256) + 256 * (a % 256) + n % 256;
    assert n / 0x100_0000 == c;
    var x := BigEndian(n);
    assert x[0] == (n / 0x100_0000) as byte && x[1] == (n / 0x1_0000 % 0x100) as byte;
    assert x[2] == (n / 0x100 % 0x100) as byte && x[3] == (n % 0x100) as byte;
  }

  predicate Fits(codec: Codec, text: string) {
    |codec.utf8(text)| < LIMIT
  }

  predicate RowFits(codec: Codec, row: Row)
    requires row.seq_ >= 0 && row.timestampMillis >= 0
  {
    && Fits(codec, "SessionRecordingChain:v1") && Fits(codec, Decimal(row.seq_))
    && Fits(codec, Decimal(row.timestampMillis)) && Fits(codec, row.kind)
    && Fits(codec, row.contentHash) && Fits(codec, row.previousHash)
  }

  /** The bytes under the entry hash: domain, number, time, kind, content and previous hash. */
  function HashedBytes(codec: Codec, row: Row): seq<byte>
    requires row.seq_ >= 0 && row.timestampMillis >= 0 && RowFits(codec, row)
  {
    Prefixed(codec, "SessionRecordingChain:v1") + Prefixed(codec, Decimal(row.seq_))
    + Prefixed(codec, Decimal(row.timestampMillis)) + Prefixed(codec, row.kind)
    + Prefixed(codec, row.contentHash) + Prefixed(codec, row.previousHash)
  }

  /** A field behind its length. */
  function Behind(x: seq<byte>): seq<byte>
    requires |x| < LIMIT
  {
    BigEndian(|x|) + x
  }

  lemma PackedFirst(fields: seq<seq<byte>>, first: seq<byte>, rest: seq<seq<byte>>)
    requires Packable(fields) && fields == [first] + rest
    ensures |first| < LIMIT && Packable(rest) && Packed(fields) == Behind(first) + Packed(rest)
  {
    assert fields[0] == first && fields[1..] == rest;
    assert forall i :: 0 <= i < |rest| ==> rest[i] == fields[i + 1];
  }

  lemma PackedSix(a: seq<byte>, b: seq<byte>, c: seq<byte>, d: seq<byte>, e: seq<byte>, f: seq<byte>)
    requires Packable([a, b, c, d, e, f])
    ensures |a| < LIMIT && |b| < LIMIT && |c| < LIMIT && |d| < LIMIT && |e| < LIMIT && |f| < LIMIT
    ensures Packed([a, b, c, d, e, f]) == Behind(a) + Behind(b) + Behind(c) + Behind(d) + Behind(e) + Behind(f)
  {
    PackedFirst([a, b, c, d, e, f], a, [b, c, d, e, f]);
    PackedFirst([b, c, d, e, f], b, [c, d, e, f]);
    PackedFirst([c, d, e, f], c, [d, e, f]);
    PackedFirst([d, e, f], d, [e, f]);
    PackedFirst([e, f], e, [f]);
    PackedFirst([f], f, []);
    Reassociate(Behind(a), Behind(b), Behind(c), Behind(d), Behind(e), Behind(f));
  }

  lemma Reassociate(a: seq<byte>, b: seq<byte>, c: seq<byte>, d: seq<byte>, e: seq<byte>, f: seq<byte>)
    ensures a + (b + (c + (d + (e + (f + []))))) == a + b + c + d + e + f
  {
    assert f + [] == f;
    assert d + (e + f) == d + e + f;
    assert c + (d + e + f) == c + d + e + f;
    assert b + (c + d + e + f) == b + c + d + e + f;
  }

  lemma FieldsFit(codec: Codec, row: Row)
    requires row.seq_ >= 0 && row.timestampMillis >= 0
    ensures Packable(Fields(codec, row)) <==> RowFits(codec, row)
  {
    var fields := Fields(codec, row);
    assert |fields| == 6;
    assert fields[0] == codec.utf8(DOMAIN) && fields[1] == codec.utf8(Decimal(row.seq_));
    assert fields[2] == codec.utf8(Decimal(row.timestampMillis)) && fields[3] == codec.utf8(row.kind);
    assert fields[4] == codec.utf8(row.contentHash) && fields[5] == codec.utf8(row.previousHash);
  }

  lemma PackedIs(codec: Codec, row: Row)
    requires row.seq_ >= 0 && row.timestampMillis >= 0 && RowFits(codec, row)
    ensures Packable(Fields(codec, row)) && Packed(Fields(codec, row)) == HashedBytes(codec, row)
  {
    FieldsFit(codec, row);
    PackedSix(codec.utf8(DOMAIN), codec.utf8(Decimal(row.seq_)), codec.utf8(Decimal(row.timestampMillis)),
              codec.utf8(row.kind), codec.utf8(row.contentHash), codec.utf8(row.previousHash));
    PrefixIs(|codec.utf8(DOMAIN)|);
    PrefixIs(|codec.utf8(Decimal(row.seq_))|);
    PrefixIs(|codec.utf8(Decimal(row.timestampMillis))|);
    PrefixIs(|codec.utf8(row.kind)|);
    PrefixIs(|codec.utf8(row.contentHash)|);
    PrefixIs(|codec.utf8(row.previousHash)|);
  }

  /** Row `i` is numbered, of a known kind, timed, not empty, linked to the row before or to 64 zeros,
      and hashed. */
  predicate RowInOrder(codec: Codec, rows: seq<Row>, i: nat)
    requires i < |rows|
  {
    var row := rows[i];
    && row.seq_ == i
    && row.kind in ["SESSION_START", "OPERATOR_COMMAND", "AGENT_OUTPUT", "POLICY_EVENT", "KILL", "SESSION_END"]
    && row.timestampMillis >= 0 && row.contentHash != ""
    && (if i == 0 then |row.previousHash| == 64 && (forall j :: 0 <= j < 64 ==> row.previousHash[j] == '0')
        else row.previousHash == rows[i - 1].entryHash)
    && RowFits(codec, row) && row.entryHash == codec.sha(HashedBytes(codec, row))
  }

  lemma RowMeans(codec: Codec, rows: seq<Row>, i: nat)
    requires i < |rows|
    ensures RowOkAt(codec, rows, i) <==> RowInOrder(codec, rows, i)
  {
    var row := rows[i];
    GenesisIs(row.previousHash);
    if row.seq_ >= 0 && row.timestampMillis >= 0 {
      FieldsFit(codec, row);
      if RowFits(codec, row) {
        PackedIs(codec, row);
      }
    }
  }

  lemma GenesisIs(s: string)
    ensures s == GENESIS <==> |s| == 64 && forall j :: 0 <= j < 64 ==> s[j] == '0'
  {
    assert |ZEROS| == 16 && forall j :: 0 <= j < 16 ==> ZEROS[j] == '0';
    assert |GENESIS| == 64 && forall j :: 0 <= j < 64 ==> GENESIS[j] == '0';
  }

  /** Exactly which chains are verified. */
  lemma VerifiedIff(codec: Codec, rows: seq<Row>)
    ensures Verified(codec, rows) <==> forall i :: 0 <= i < |rows| ==> RowInOrder(codec, rows, i)
  {
    forall i: nat | i < |rows| ensures RowOkAt(codec, rows, i) <==> RowInOrder(codec, rows, i) {
      RowMeans(codec, rows, i);
    }
  }

  /** What the hash is computed over, for every row of a verified chain. */
  ghost function Hashed(codec: Codec, rows: seq<Row>): set<seq<byte>>
    requires Verified(codec, rows)
  {
    set i | 0 <= i < |rows| && RowOkAt(codec, rows, i) :: Packed(Fields(codec, rows[i]))
  }

  ghost predicate NoCollision(codec: Codec, hashed: set<seq<byte>>) {
    forall a, b :: a in hashed && b in hashed && codec.sha(a) == codec.sha(b) ==> a == b
  }

  /** Rows equal in everything but the session they name. */
  predicate SameContent(a: Row, b: Row) {
    a.(chainId := b.chainId) == b
  }

  ghost predicate SameContents(a: seq<Row>, b: seq<Row>) {
    |a| == |b| && forall i :: 0 <= i < |a| ==> SameContent(a[i], b[i])
  }

  lemma EqualHashEqualRow(codec: Codec, a: Row, i: nat, p: string, b: Row, j: nat, q: string)
    requires codec.Valid() && RowOk(codec, a, i, p) && RowOk(codec, b, j, q)
    requires Packed(Fields(codec, a)) == Packed(Fields(codec, b))
    ensures SameContent(a, b) && i == j && p == q
  {
    var x, y := Fields(codec, a), Fields(codec, b);
    PackedInjective(x, y);
    assert x[1] == y[1] && x[2] == y[2] && x[3] == y[3] && x[4] == y[4] && x[5] == y[5];
    DecimalInjective(a.seq_, b.seq_);
    DecimalInjective(a.timestampMillis, b.timestampMillis);
  }

  lemma VerifiedPrefix(codec: Codec, rows: seq<Row>)
    requires rows != [] && Verified(codec, rows)
    ensures Verified(codec, rows[..|rows| - 1])
    ensures Hashed(codec, rows[..|rows| - 1]) <= Hashed(codec, rows)
  {
    var shorter := rows[..|rows| - 1];
    forall i | 0 <= i < |shorter| ensures RowOkAt(codec, shorter, i) {
      assert RowOkAt(codec, rows, i);
    }
    forall h | h in Hashed(codec, shorter) ensures h in Hashed(codec, rows) {
      var i :| 0 <= i < |shorter| && RowOkAt(codec, shorter, i) && h == Packed(Fields(codec, shorter[i]));
      assert RowOkAt(codec, rows, i);
    }
  }

  lemma RowIsHashed(codec: Codec, rows: seq<Row>, i: nat)
    requires Verified(codec, rows) && i < |rows|
    ensures RowOkAt(codec, rows, i)
    ensures Packed(Fields(codec, rows[i])) in Hashed(codec, rows)
    ensures codec.sha(Packed(Fields(codec, rows[i]))) == rows[i].entryHash
  {
    assert RowOkAt(codec, rows, i);
  }

  function PreviousOf(rows: seq<Row>): string
    requires rows != []
  {
    if |rows| == 1 then GENESIS else rows[|rows| - 2].entryHash
  }

  /** Two verified chains, free of collisions, that end in the same entry hash. */
  ghost predicate SameEnd(codec: Codec, a: seq<Row>, b: seq<Row>) {
    && Verified(codec, a) && Verified(codec, b) && a != [] && b != []
    && NoCollision(codec, Hashed(codec, a) + Hashed(codec, b))
    && a[|a| - 1].entryHash == b[|b| - 1].entryHash
  }

  /** Equal last hashes mean last rows of equal content, at the same position, on equal previous hashes. */
  lemma SameEndSameRow(codec: Codec, a: seq<Row>, b: seq<Row>)
    requires codec.Valid() && SameEnd(codec, a, b)
    ensures SameContent(a[|a| - 1], b[|b| - 1]) && |a| == |b| && PreviousOf(a) == PreviousOf(b)
  {
    var n, m := |a| - 1, |b| - 1;
    RowIsHashed(codec, a, n);
    RowIsHashed(codec, b, m);
    var x, y := Packed(Fields(codec, a[n])), Packed(Fields(codec, b[m]));
    assert x == y by {
      assert x in Hashed(codec, a) + Hashed(codec, b) && y in Hashed(codec, a) + Hashed(codec, b);
    }
    EqualHashEqualRow(codec, a[n], n, PreviousOf(a), b[m], m, PreviousOf(b));
  }

  /** Two verified chains that end in the same entry hash have the same content, row by row:
      they can differ in nothing but the session they name. */
  lemma {:induction false} SameEndSameContents(codec: Codec, a: seq<Row>, b: seq<Row>)
    requires codec.Valid() && SameEnd(codec, a, b)
    ensures SameContents(a, b)
  {
    SameEndSameRow(codec, a, b);
    if |a| > 1 {
      var shorterA, shorterB := a[..|a| - 1], b[..|b| - 1];
      ShorterChains(codec, a, b, shorterA, shorterB);
      SameEndSameContents(codec, shorterA, shorterB);
      SameContentsSnoc(a, b, shorterA, shorterB);
    }
  }

  lemma SameContentsSnoc(a: seq<Row>, b: seq<Row>, x: seq<Row>, y: seq<Row>)
    requires |a| == |b| > 0 && x == a[..|a| - 1] && y == b[..|b| - 1]
    requires SameContents(x, y) && SameContent(a[|a| - 1], b[|b| - 1])
    ensures SameContents(a, b)
  {
    forall i | 0 <= i < |a| - 1 ensures SameContent(a[i], b[i]) {
      assert x[i] == a[i] && y[i] == b[i];
    }
  }

  /** The same rows under another session. */
  function Relabelled(rows: seq<Row>, session: string): seq<Row> {
    seq(|rows|, i requires 0 <= i < |rows| => rows[i].(chainId := session))
  }

  /** The hash does not protect the session: a verified recording of one session, with every
      row relabelled to another, is a verified recording of that one with the same last hash. */
  lemma RelabelledVerifies(codec: Codec, rows: seq<Row>, session: string, other: string)
    requires Verified(codec, rows) && LoadedFor(rows, session) && other != session
    ensures var copy := Relabelled(rows, other);
            && Verified(codec, copy) && LoadedFor(copy, other)
            && copy[|copy| - 1].entryHash == rows[|rows| - 1].entryHash
            && SameContents(rows, copy) && copy != rows
  {
    var copy := Relabelled(rows, other);
    forall i | 0 <= i < |copy| ensures RowOkAt(codec, copy, i) {
      assert RowOkAt(codec, rows, i);
      assert Fields(codec, copy[i]) == Fields(codec, rows[i]);
    }
    assert copy[0].chainId == other && rows[0].chainId == session;
  }

  /** Of two verified recordings with the same last hash, loaded for sessions `s` and `t`: they
      are the same recording exactly when the sessions are the same. */
  lemma SameEndSameChainIff(codec: Codec, a: seq<Row>, s: string, b: seq<Row>, t: string)
    requires codec.Valid() && SameEnd(codec, a, b) && LoadedFor(a, s) && LoadedFor(b, t)
    ensures a == b <==> s == t
  {
    SameEndSameContents(codec, a, b);
    assert a[0].chainId == s && b[0].chainId == t;
    if s == t {
      forall i | 0 <= i < |a| ensures a[i] == b[i] {
        assert SameContent(a[i], b[i]);
      }
    }
  }

  lemma ShorterChains(codec: Codec, a: seq<Row>, b: seq<Row>, x: seq<Row>, y: seq<Row>)
    requires SameEnd(codec, a, b) && |a| > 1 && |b| > 1 && PreviousOf(a) == PreviousOf(b)
    requires x == a[..|a| - 1] && y == b[..|b| - 1]
    ensures SameEnd(codec, x, y)
  {
    VerifiedPrefix(codec, a);
    VerifiedPrefix(codec, b);
  }
}
