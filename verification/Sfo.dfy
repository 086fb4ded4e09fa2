/** `tools/make-sfo.py`: a PARAM.SFO with its index in key order. */
module Sfo {
  import opened Bytes
  import opened LittleEndian
  import opened Pieces

  /** Keys and texts as their UTF-8 bytes; their order is the order of the code points. */
  datatype Value = Int(n: int) | Utf8(s: bytes)
  datatype Entry = Entry(key: bytes, value: Value)

  const MAGIC: bytes := [0, 'P' as int, 'S' as int, 'F' as int]
  const VERSION := 0x101
  const FMT_UTF8 := 0x0204
  const FMT_INT32 := 0x0404

  // ------------------------------------------------------------------ order --

  predicate Less(a: bytes, b: bytes) {
    b != [] && (a == [] || a[0] < b[0] || (a[0] == b[0] && Less(a[1..], b[1..])))
  }

  lemma {:induction false} LessTotal(a: bytes, b: bytes)
    ensures Less(a, b) || a == b || Less(b, a)
    ensures !(Less(a, b) && Less(b, a)) && (a == b ==> !Less(a, b))
  {
    if a != [] && b != [] {
      LessTotal(a[1..], b[1..]);
      assert a == [a[0]] + a[1..] && b == [b[0]] + b[1..];
    }
  }

  lemma {:induction false} LessTransitive(a: bytes, b: bytes, c: bytes)
    requires Less(a, b) && Less(b, c)
    ensures Less(a, c)
  {
    if a != [] && a[0] == b[0] == c[0] {
      LessTransitive(a[1..], b[1..], c[1..]);
    }
  }

  predicate Increasing(es: seq<Entry>) {
    forall i, j :: 0 <= i < j < |es| ==> Less(es[i].key, es[j].key)
  }

  predicate Distinct(es: seq<Entry>) {
    forall i, j :: 0 <= i < j < |es| ==> es[i].key != es[j].key
  }

  /** Where a stable sort puts one more entry: after those not greater. */
  function Insert(es: seq<Entry>, e: Entry): (s: seq<Entry>)
    ensures multiset(s) == multiset(es) + multiset{e}
  {
    if es == [] then [e]
    else
      var last := es[|es| - 1];
      assert es == es[..|es| - 1] + [last];
      if Less(e.key, last.key) then Insert(es[..|es| - 1], e) + [last] else es + [e]
  }

  /** `sorted` by key. */
  function Sort(es: seq<Entry>): (s: seq<Entry>)
    ensures multiset(s) == multiset(es)
  {
    if es == [] then []
    else
      assert es == es[..|es| - 1] + [es[|es| - 1]];
      Insert(Sort(es[..|es| - 1]), es[|es| - 1])
  }

  lemma SameKeys(a: seq<Entry>, b: seq<Entry>, key: bytes)
    requires multiset(a) == multiset(b) && forall e :: e in a ==> e.key != key
    ensures forall e :: e in b ==> e.key != key
  {
    forall e | e in b
      ensures e.key != key
    {
      assert e in multiset(b);
      assert e in a;
    }
  }

  lemma {:induction false} InsertIncreases(es: seq<Entry>, e: Entry)
    requires Increasing(es) && forall x :: x in es ==> x.key != e.key
    ensures Increasing(Insert(es, e))
    decreases |es|
  {
    if es != [] {
      var n := |es| - 1;
      var front, last := es[..n], es[n];
      LessTotal(e.key, last.key);
      if Less(e.key, last.key) {
        InsertIncreases(front, e);
        var s := Insert(front, e);
        forall i | 0 <= i < |s|
          ensures Less(s[i].key, last.key)
        {
          assert s[i] in multiset(s);
          if s[i] != e {
            assert s[i] in front;
          }
        }
      } else {
        forall i | 0 <= i < n
          ensures Less(es[i].key, e.key)
        {
          LessTransitive(es[i].key, last.key, e.key);
        }
      }
    }
  }

  /** Distinct keys come out in strictly increasing order. */
  lemma {:induction false} SortIncreases(es: seq<Entry>)
    requires Distinct(es)
    ensures Increasing(Sort(es))
    decreases |es|
  {
    if es != [] {
      var front := es[..|es| - 1];
      SortIncreases(front);
      SameKeys(front, Sort(front), es[|es| - 1].key);
      InsertIncreases(Sort(front), es[|es| - 1]);
    }
  }

  // ----------------------------------------------------------------- layout --

  function Length(v: Value): nat {
    if v.Int? then 4 else |v.s| + 1
  }

  /** Up to the next multiple of four: `(n + 3) & ~3`. */
  function RoundUp(n: nat): (m: nat)
    ensures n <= m < n + 4 && m % 4 == 0
  {
    (n + 3) / 4 * 4
  }

  function MaxLength(v: Value): (n: nat)
    ensures Length(v) <= n < Length(v) + 4
  {
    RoundUp(Length(v))
  }

  function Format(v: Value): nat {
    if v.Int? then FMT_INT32 else FMT_UTF8
  }

  function Padding(n: nat): (s: bytes)
    ensures |s| == n
  {
    if n == 0 then [] else Padding(n - 1) + [NUL]
  }

  ghost function Payload(v: Value): (s: bytes)
    ensures |s| == MaxLength(v)
  {
    if v.Int? then Pack4(Max(v.n, 0)) else v.s + [NUL] + Padding(MaxLength(v) - Length(v))
  }

  /** The keys of the first `n` entries, each ended by NUL. */
  function KeyPieces(es: seq<Entry>): (pieces: seq<bytes>)
    ensures |pieces| == |es|
  {
    seq(|es|, i requires 0 <= i < |es| => es[i].key + [NUL])
  }

  function KeyBlob(es: seq<Entry>, n: nat): bytes
    requires n <= |es|
  {
    Concat(KeyPieces(es), n)
  }

  ghost function DataPieces(es: seq<Entry>): (pieces: seq<bytes>)
    ensures |pieces| == |es|
  {
    seq(|es|, i requires 0 <= i < |es| => Payload(es[i].value))
  }

  ghost function DataBlob(es: seq<Entry>, n: nat): bytes
    requires n <= |es|
  {
    Concat(DataPieces(es), n)
  }

  /** Where the key and the value of entry `n` start in their tables. */
  function KeyAt(es: seq<Entry>, n: nat): nat
    requires n <= |es|
  {
    if n == 0 then 0 else KeyAt(es, n - 1) + |es[n - 1].key| + 1
  }

  function DataAt(es: seq<Entry>, n: nat): nat
    requires n <= |es|
  {
    if n == 0 then 0 else DataAt(es, n - 1) + MaxLength(es[n - 1].value)
  }

  ghost function IndexEntry(keyAt: nat, v: Value, dataAt: nat): (s: bytes)
    ensures |s| == 16
  {
    Pack2(keyAt) + Pack2(Format(v)) + Pack4(Length(v)) + Pack4(MaxLength(v)) + Pack4(dataAt)
  }

  /** The index entry of entry `i`. */
  ghost function IndexEntryOf(es: seq<Entry>, i: nat): (s: bytes)
    requires i < |es|
    ensures |s| == 16
  {
    IndexEntry(KeyAt(es, i), es[i].value, DataAt(es, i))
  }

  ghost function IndexPieces(es: seq<Entry>): (pieces: seq<bytes>)
    ensures |pieces| == |es|
  {
    seq(|es|, i requires 0 <= i < |es| => IndexEntryOf(es, i))
  }

  ghost function IndexBlob(es: seq<Entry>, n: nat): bytes
    requires n <= |es|
  {
    Concat(IndexPieces(es), n)
  }

  function KeyTableAt(es: seq<Entry>): nat {
    20 + 16 * |es|
  }

  function DataTableAt(es: seq<Entry>): (at: nat)
    ensures KeyTableAt(es) + |KeyBlob(es, |es|)| <= at
  {
    KeyTableAt(es) + RoundUp(|KeyBlob(es, |es|)|)
  }

  ghost function Header(es: seq<Entry>): (s: bytes)
    ensures |s| == 20
  {
    PackHeader(KeyTableAt(es), DataTableAt(es), |es|)
  }

  ghost function PackHeader(keyTable: nat, dataTable: nat, count: nat): (s: bytes)
    ensures |s| == 20
  {
    MAGIC + Pack4(VERSION) + Pack4(keyTable) + Pack4(dataTable) + Pack4(count)
  }

  function PaddedKeys(es: seq<Entry>): (s: bytes)
    ensures |s| == DataTableAt(es) - KeyTableAt(es)
  {
    KeyBlob(es, |es|) + KeyPadding(es)
  }

  function KeyPadding(es: seq<Entry>): bytes {
    Padding(RoundUp(|KeyBlob(es, |es|)|) - |KeyBlob(es, |es|)|)
  }

  ghost function File(es: seq<Entry>): bytes {
    Header(es) + IndexBlob(es, |es|) + PaddedKeys(es) + DataBlob(es, |es|)
  }

  /** What `struct.pack` accepts for a value whose key and data start at these offsets. */
  predicate FieldsFit(v: Value, keyAt: nat, dataAt: nat) {
    (v.Int? ==> 0 <= v.n < LIMIT32) && keyAt < LIMIT16 && MaxLength(v) < LIMIT32 && dataAt < LIMIT32
  }

  predicate Packs(es: seq<Entry>, i: nat)
    requires i < |es|
  {
    FieldsFit(es[i].value, KeyAt(es, i), DataAt(es, i))
  }

  /** The first `n` entries all pack. */
  predicate PackUpTo(es: seq<Entry>, n: nat)
    requires n <= |es|
  {
    n == 0 || (PackUpTo(es, n - 1) && Packs(es, n - 1))
  }

  predicate AllPack(es: seq<Entry>) {
    PackUpTo(es, |es|) && DataTableAt(es) < LIMIT32
  }

  lemma {:induction false} PackUpToFewer(es: seq<Entry>, n: nat, i: nat)
    requires i < n <= |es| && PackUpTo(es, n)
    ensures Packs(es, i)
    decreases n
  {
    if i < n - 1 {
      PackUpToFewer(es, n - 1, i);
    }
  }

  lemma {:induction false} MisfitStops(es: seq<Entry>, i: nat, n: nat)
    requires i < n <= |es| && !Packs(es, i)
    ensures !PackUpTo(es, n)
    decreases n
  {
    if i < n - 1 {
      MisfitStops(es, i, n - 1);
    }
  }

  // ----------------------------------------------------------------- reader --

  /** The bytes from `at` up to the next NUL. */
  function StringAt(file: bytes, at: nat): bytes
    decreases |file| - at
  {
    if at >= |file| || file[at] == NUL then [] else [file[at]] + StringAt(file, at + 1)
  }

  function ReadValue(file: bytes, format: nat, data: nat, length: nat): Option<Value> {
    if data + length > |file| then None
    else if format == FMT_INT32 && length == 4 then Some(Int(Word4(file, data)))
    else if format == FMT_UTF8 && length >= 1 then Some(Utf8(file[data..data + length - 1]))
    else None
  }

  /** One entry as a reader finds it from the header's two table offsets. */
  function ReadEntry(file: bytes, keyTable: nat, dataTable: nat, i: nat): Option<Entry> {
    var at := 20 + 16 * i;
    if at + 16 > |file| then None else
    match ReadValue(file, Word2(file, at + 2), dataTable + Word4(file, at + 12), Word4(file, at + 4))
    case None => None
    case Some(v) => Some(Entry(StringAt(file, keyTable + Word2(file, at)), v))
  }

  function ReadEntries(file: bytes, keyTable: nat, dataTable: nat, n: nat): Option<seq<Entry>> {
    if n == 0 then Some([]) else
    match (ReadEntries(file, keyTable, dataTable, n - 1), ReadEntry(file, keyTable, dataTable, n - 1))
    case (Some(es), Some(e)) => Some(es + [e])
    case _ => None
  }

  function Read(file: bytes): Option<seq<Entry>> {
    if |file| < 20 || file[..4] != MAGIC then None
    else ReadEntries(file, Word4(file, 8), Word4(file, 12), Word4(file, 16))
  }

  // ------------------------------------------------------------- round trip --

  lemma {:induction false} KeySizes(es: seq<Entry>, n: nat)
    requires n <= |es|
    ensures |KeyBlob(es, n)| == KeyAt(es, n)
    decreases n
  {
    if n > 0 {
      KeySizes(es, n - 1);
      ConcatSize(KeyPieces(es), n - 1);
    }
  }

  lemma DataPieceSize(es: seq<Entry>, i: nat, piece: bytes)
    requires i < |es| && piece == DataPieces(es)[i]
    ensures |piece| == MaxLength(es[i].value)
  {
  }

  lemma DataGrows(es: seq<Entry>, n: nat)
    requires n < |es|
    ensures |DataBlob(es, n + 1)| == |DataBlob(es, n)| + MaxLength(es[n].value)
  {
    var pieces := DataPieces(es);
    ConcatSize(pieces, n);
    DataPieceSize(es, n, pieces[n]);
  }

  lemma {:induction false} DataSizes(es: seq<Entry>, n: nat)
    requires n <= |es|
    ensures |DataBlob(es, n)| == DataAt(es, n)
    decreases n
  {
    if n > 0 {
      DataSizes(es, n - 1);
      DataGrows(es, n - 1);
    }
  }

  lemma IndexBlobGrows(es: seq<Entry>, n: nat)
    requires n < |es|
    ensures |IndexBlob(es, n + 1)| == |IndexBlob(es, n)| + 16
  {
    ConcatSize(IndexPieces(es), n);
  }

  lemma {:induction false} IndexSizes(es: seq<Entry>, n: nat)
    requires n <= |es|
    ensures |IndexBlob(es, n)| == 16 * n
    decreases n
  {
    if n > 0 {
      IndexSizes(es, n - 1);
      IndexBlobGrows(es, n - 1);
    }
  }

  lemma BlobSizes(es: seq<Entry>, n: nat)
    requires n <= |es|
    ensures |KeyBlob(es, n)| == KeyAt(es, n) && |DataBlob(es, n)| == DataAt(es, n) && |IndexBlob(es, n)| == 16 * n
  {
    KeySizes(es, n);
    DataSizes(es, n);
    IndexSizes(es, n);
  }

  // Entry `i` sits in each blob where the entries before it end.

  lemma KeyPlaced(es: seq<Entry>, i: nat)
    requires i < |es|
    ensures At(KeyBlob(es, |es|), KeyAt(es, i), es[i].key + [NUL])
  {
    KeySizes(es, i);
    PiecePlaced(KeyPieces(es), i);
  }

  lemma DataPlaced(es: seq<Entry>, i: nat)
    requires i < |es|
    ensures At(DataBlob(es, |es|), DataAt(es, i), Payload(es[i].value))
  {
    DataSizes(es, i);
    PiecePlaced(DataPieces(es), i);
  }

  lemma IndexPlaced(es: seq<Entry>, i: nat)
    requires i < |es|
    ensures At(IndexBlob(es, |es|), 16 * i, IndexEntryOf(es, i))
  {
    IndexSizes(es, i);
    PiecePlaced(IndexPieces(es), i);
  }

  // ----------------------------------------------- reading one entry's parts --

  /** A string and its NUL are read back from wherever they are. */
  lemma {:induction false} StringRead(f: bytes, at: nat, s: bytes)
    requires At(f, at, s + [NUL]) && NUL !in s
    ensures StringAt(f, at) == s
    decreases |s|
  {
    var t := s + [NUL];
    assert f[at + 0] == t[0];
    if s != [] {
      assert t[0] == s[0] && s[0] in s;
      var u := s[1..] + [NUL];
      forall i {:trigger u[i]} | 0 <= i < |u|
        ensures f[at + 1 + i] == u[i]
      {
        assert t[1 + i] == u[i];
      }
      StringRead(f, at + 1, s[1..]);
      assert s == [s[0]] + s[1..];
    }
  }

  lemma FivePieces(a: bytes, b: bytes, c: bytes, d: bytes, e: bytes)
    requires |a| == |b| == 2 && |c| == |d| == |e| == 4
    ensures var s := a + b + c + d + e;
      At(s, 0, a) && At(s, 2, b) && At(s, 4, c) && At(s, 8, d) && At(s, 12, e)
  {
  }

  lemma FieldsPlaced(f: bytes, at: nat, k: nat, v: Value, d: nat)
    requires At(f, at, IndexEntry(k, v, d))
    ensures At(f, at + 0, Pack2(k)) && At(f, at + 2, Pack2(Format(v))) && At(f, at + 4, Pack4(Length(v)))
    ensures At(f, at + 8, Pack4(MaxLength(v))) && At(f, at + 12, Pack4(d))
  {
    var s := IndexEntry(k, v, d);
    FivePieces(Pack2(k), Pack2(Format(v)), Pack4(Length(v)), Pack4(MaxLength(v)), Pack4(d));
    AtWithin(f, at, s, 0, Pack2(k));
    AtWithin(f, at, s, 2, Pack2(Format(v)));
    AtWithin(f, at, s, 4, Pack4(Length(v)));
    AtWithin(f, at, s, 8, Pack4(MaxLength(v)));
    AtWithin(f, at, s, 12, Pack4(d));
  }

  lemma FieldsRead(f: bytes, at: nat, k: nat, v: Value, d: nat)
    requires At(f, at, IndexEntry(k, v, d)) && FieldsFit(v, k, d)
    ensures at + 16 <= |f| && Word2(f, at) == k && Word2(f, at + 2) == Format(v)
    ensures Word4(f, at + 4) == Length(v) && Word4(f, at + 8) == MaxLength(v) && Word4(f, at + 12) == d
  {
    FieldsPlaced(f, at, k, v, d);
    Word2Read(f, at, k);
    Word2Read(f, at + 2, Format(v));
    Word4Read(f, at + 4, Length(v));
    Word4Read(f, at + 8, MaxLength(v));
    Word4Read(f, at + 12, d);
  }

  predicate ReadsBack(f: bytes, data: nat, v: Value) {
    ReadValue(f, Format(v), data, Length(v)) == Some(v)
  }

  /** A payload gives its value back. */
  lemma ValueRead(f: bytes, data: nat, v: Value)
    requires At(f, data, Payload(v)) && (v.Int? ==> 0 <= v.n < LIMIT32)
    ensures ReadsBack(f, data, v)
  {
    if v.Int? {
      Word4Read(f, data, v.n);
    } else {
      var p := Payload(v);
      assert p == [] + v.s + ([NUL] + Padding(MaxLength(v) - Length(v)));
      AtMiddle([], v.s, [NUL] + Padding(MaxLength(v) - Length(v)));
      AtWithin(f, data, p, 0, v.s);
      AtSlice(f, data, v.s);
    }
  }

  // -------------------------------------------------------- the whole file --

  // The three tables are where the header says they are.

  ghost predicate IndexLaid(f: bytes, es: seq<Entry>) {
    At(f, 20, IndexBlob(es, |es|))
  }

  ghost predicate KeysLaid(f: bytes, es: seq<Entry>) {
    At(f, KeyTableAt(es), KeyBlob(es, |es|))
  }

  ghost predicate DataLaid(f: bytes, es: seq<Entry>) {
    At(f, DataTableAt(es), DataBlob(es, |es|))
  }

  lemma FourTables(a: bytes, b: bytes, c: bytes, pad: bytes, d: bytes)
    ensures var f := a + b + (c + pad) + d;
      At(f, 0, a) && At(f, |a|, b) && At(f, |a| + |b|, c) && At(f, |a| + |b| + |c| + |pad|, d)
  {
    var f := a + b + (c + pad) + d;
    assert f == [] + a + (b + (c + pad) + d) && f == a + b + (c + pad + d);
    assert f == (a + b) + c + (pad + d) && f == (a + b + (c + pad)) + d + [];
    AtMiddle([], a, b + (c + pad) + d);
    AtMiddle(a, b, c + pad + d);
    AtMiddle(a + b, c, pad + d);
    AtMiddle(a + b + (c + pad), d, []);
  }

  lemma FileIsLaidOut(es: seq<Entry>)
    ensures IndexLaid(File(es), es) && KeysLaid(File(es), es) && DataLaid(File(es), es)
    ensures At(File(es), 0, Header(es)) && |File(es)| == DataTableAt(es) + DataAt(es, |es|)
  {
    BlobSizes(es, |es|);
    FourTables(Header(es), IndexBlob(es, |es|), KeyBlob(es, |es|), KeyPadding(es), DataBlob(es, |es|));
  }

  lemma KeyRead(f: bytes, es: seq<Entry>, i: nat)
    requires KeysLaid(f, es) && i < |es| && NUL !in es[i].key
    ensures StringAt(f, KeyTableAt(es) + KeyAt(es, i)) == es[i].key
  {
    KeyPlaced(es, i);
    AtWithin(f, KeyTableAt(es), KeyBlob(es, |es|), KeyAt(es, i), es[i].key + [NUL]);
    StringRead(f, KeyTableAt(es) + KeyAt(es, i), es[i].key);
  }

  lemma PayloadPlaced(f: bytes, es: seq<Entry>, i: nat)
    requires DataLaid(f, es) && i < |es|
    ensures At(f, DataTableAt(es) + DataAt(es, i), Payload(es[i].value))
  {
    DataPlaced(es, i);
    AtWithin(f, DataTableAt(es), DataBlob(es, |es|), DataAt(es, i), Payload(es[i].value));
  }

  lemma ValueReadAt(f: bytes, es: seq<Entry>, i: nat, at: nat, v: Value)
    requires DataLaid(f, es) && i < |es| && Packs(es, i)
    requires at == DataTableAt(es) + DataAt(es, i) && v == es[i].value
    ensures ReadsBack(f, at, v)
  {
    PayloadPlaced(f, es, i);
    ValueRead(f, at, v);
  }

  lemma IndexEntryPlaced(f: bytes, es: seq<Entry>, i: nat)
    requires IndexLaid(f, es) && i < |es|
    ensures At(f, 20 + 16 * i, IndexEntry(KeyAt(es, i), es[i].value, DataAt(es, i)))
  {
    IndexPlaced(es, i);
    AtWithin(f, 20, IndexBlob(es, |es|), 16 * i, IndexEntry(KeyAt(es, i), es[i].value, DataAt(es, i)));
  }

  /** An entry is read back when its parts are what its offsets lead to. */
  lemma EntryRead(f: bytes, keyTable: nat, dataTable: nat, i: nat, e: Entry, k: nat, d: nat)
    requires 20 + 16 * i + 16 <= |f| && Word2(f, 20 + 16 * i) == k && Word2(f, 20 + 16 * i + 2) == Format(e.value)
    requires Word4(f, 20 + 16 * i + 4) == Length(e.value) && Word4(f, 20 + 16 * i + 12) == d
    requires StringAt(f, keyTable + k) == e.key
    requires ReadsBack(f, dataTable + d, e.value)
    ensures ReadEntry(f, keyTable, dataTable, i) == Some(e)
  {
  }

  lemma IndexRead(f: bytes, es: seq<Entry>, i: nat)
    requires IndexLaid(f, es) && i < |es| && Packs(es, i)
    ensures 20 + 16 * i + 16 <= |f| && Word2(f, 20 + 16 * i) == KeyAt(es, i)
    ensures Word2(f, 20 + 16 * i + 2) == Format(es[i].value) && Word4(f, 20 + 16 * i + 4) == Length(es[i].value)
    ensures Word4(f, 20 + 16 * i + 12) == DataAt(es, i)
  {
    var at, d := 20 + 16 * i, DataAt(es, i);
    IndexEntryPlaced(f, es, i);
    FieldsRead(f, at, KeyAt(es, i), es[i].value, d);
    assert Word4(f, at + 12) == d;
  }

  lemma {:induction false} EntriesFollow(f: bytes, keyTable: nat, dataTable: nat, es: seq<Entry>, n: nat)
    requires n <= |es| && forall i :: 0 <= i < n ==> ReadEntry(f, keyTable, dataTable, i) == Some(es[i])
    ensures ReadEntries(f, keyTable, dataTable, n) == Some(es[..n])
    decreases n
  {
    if n > 0 {
      var front := es[..n - 1];
      EntriesFollow(f, keyTable, dataTable, es, n - 1);
      assert ReadEntries(f, keyTable, dataTable, n) == Some(front + [es[n - 1]]);
      assert es[..n] == front + [es[n - 1]];
    }
  }

  lemma EntriesRead(f: bytes, es: seq<Entry>)
    requires IndexLaid(f, es) && KeysLaid(f, es) && DataLaid(f, es)
    requires PackUpTo(es, |es|) && forall e :: e in es ==> NUL !in e.key
    ensures ReadEntries(f, KeyTableAt(es), DataTableAt(es), |es|) == Some(es)
  {
    var keyTable, dataTable := KeyTableAt(es), DataTableAt(es);
    forall i | 0 <= i < |es|
      ensures ReadEntry(f, keyTable, dataTable, i) == Some(es[i])
    {
      assert es[i] in es;
      PackUpToFewer(es, |es|, i);
      EntryReadAt(f, es, i);
    }
    EntriesFollow(f, keyTable, dataTable, es, |es|);
    assert es[..|es|] == es;
  }

  lemma EntryReadAt(f: bytes, es: seq<Entry>, i: nat)
    requires IndexLaid(f, es) && KeysLaid(f, es) && DataLaid(f, es)
    requires i < |es| && Packs(es, i) && NUL !in es[i].key
    ensures ReadEntry(f, KeyTableAt(es), DataTableAt(es), i) == Some(es[i])
  {
    IndexRead(f, es, i);
    KeyRead(f, es, i);
    ValueReadAt(f, es, i, DataTableAt(es) + DataAt(es, i), es[i].value);
    EntryRead(f, KeyTableAt(es), DataTableAt(es), i, es[i], KeyAt(es, i), DataAt(es, i));
  }

  lemma HeaderPlaced(f: bytes, k: nat, d: nat, n: nat)
    requires At(f, 0, PackHeader(k, d, n))
    ensures At(f, 0, MAGIC) && At(f, 8, Pack4(k)) && At(f, 12, Pack4(d)) && At(f, 16, Pack4(n))
  {
    var h := PackHeader(k, d, n);
    var a, b := MAGIC, Pack4(VERSION);
    assert h == [] + a + (b + Pack4(k) + Pack4(d) + Pack4(n));
    assert h == (a + b) + Pack4(k) + (Pack4(d) + Pack4(n)) && h == (a + b + Pack4(k)) + Pack4(d) + Pack4(n);
    assert h == (a + b + Pack4(k) + Pack4(d)) + Pack4(n) + [];
    AtMiddle([], a, b + Pack4(k) + Pack4(d) + Pack4(n));
    AtMiddle(a + b, Pack4(k), Pack4(d) + Pack4(n));
    AtMiddle(a + b + Pack4(k), Pack4(d), Pack4(n));
    AtMiddle(a + b + Pack4(k) + Pack4(d), Pack4(n), []);
    AtWithin(f, 0, h, 0, a);
    AtWithin(f, 0, h, 8, Pack4(k));
    AtWithin(f, 0, h, 12, Pack4(d));
    AtWithin(f, 0, h, 16, Pack4(n));
  }

  lemma HeaderRead(f: bytes, k: nat, d: nat, n: nat)
    requires At(f, 0, PackHeader(k, d, n)) && k < LIMIT32 && d < LIMIT32 && n < LIMIT32
    ensures |f| >= 20 && f[..4] == MAGIC && Word4(f, 8) == k && Word4(f, 12) == d && Word4(f, 16) == n
  {
    HeaderPlaced(f, k, d, n);
    AtSlice(f, 0, MAGIC);
    Word4Read(f, 8, k);
    Word4Read(f, 12, d);
    Word4Read(f, 16, n);
  }

  /** A reader that follows the header and the index recovers every pair. */
  lemma FileRoundTrip(es: seq<Entry>)
    requires AllPack(es) && forall e :: e in es ==> NUL !in e.key
    ensures Read(File(es)) == Some(es)
  {
    FileIsLaidOut(es);
    HeaderRead(File(es), KeyTableAt(es), DataTableAt(es), |es|);
    EntriesRead(File(es), es);
  }

  lemma MultiplesAdd(n: int, k: int)
    requires k % 4 == 0
    ensures (20 + 16 * n + k) % 4 == 0
  {
    var q := k / 4;
    assert 20 + 16 * n + k == 4 * (5 + 4 * n + q);
  }

  lemma AlignedTable(n: nat, k: nat)
    ensures (20 + 16 * n + RoundUp(k)) % 4 == 0
  {
    MultiplesAdd(n, RoundUp(k));
  }

  /** The data table starts on four bytes and so does every value; each value starts where
    * the one before it ends, and the last ends where the file does. */
  lemma ValuesTile(es: seq<Entry>, i: nat)
    requires i < |es|
    ensures DataTableAt(es) % 4 == 0 && DataAt(es, i) % 4 == 0 && DataAt(es, 0) == 0
    ensures DataAt(es, i + 1) == DataAt(es, i) + MaxLength(es[i].value)
    ensures DataTableAt(es) + DataAt(es, |es|) == |File(es)|
    ensures At(File(es), DataTableAt(es) + DataAt(es, i), Payload(es[i].value))
  {
    TableIsAligned(es);
    ValueIsAligned(es, i);
    ValuesAreInPlace(es, i);
  }

  lemma TableIsAligned(es: seq<Entry>)
    ensures DataTableAt(es) % 4 == 0
  {
    AlignedTable(|es|, |KeyBlob(es, |es|)|);
  }

  lemma ValuesAreInPlace(es: seq<Entry>, i: nat)
    requires i < |es|
    ensures DataTableAt(es) + DataAt(es, |es|) == |File(es)|
    ensures At(File(es), DataTableAt(es) + DataAt(es, i), Payload(es[i].value))
  {
    var f := File(es);
    FileIsLaidOut(es);
    PayloadPlaced(f, es, i);
  }

  lemma {:induction false} ValueIsAligned(es: seq<Entry>, i: nat)
    requires i <= |es|
    ensures DataAt(es, i) % 4 == 0
    decreases i
  {
    if i > 0 {
      ValueIsAligned(es, i - 1);
    }
  }

  // ------------------------------------------------------- the file, byte by byte --

  /** NUL `PSF`, version 1.1, where the keys and where the values are, and how many. */
  predicate HeaderIs(f: bytes, keys: int, values: int, count: int) {
    && |f| >= 20 && f[..4] == [0, 80, 83, 70] && Word4(f, 4) == 0x101
    && Word4(f, 8) == keys && Word4(f, 12) == values && Word4(f, 16) == count
  }

  lemma {:induction false} VersionPlaced(f: bytes, k: nat, d: nat, n: nat)
    requires At(f, 0, PackHeader(k, d, n))
    ensures At(f, 4, Pack4(VERSION))
  {
    var h := PackHeader(k, d, n);
    var a, b, c := MAGIC, Pack4(VERSION), Pack4(k) + Pack4(d) + Pack4(n);
    assert h == a + b + c;
    AtMiddle(a, b, c);
    AtWithin(f, 0, h, 4, b);
  }

  lemma {:induction false} HeaderBytes(f: bytes, k: nat, d: nat, n: nat)
    requires At(f, 0, PackHeader(k, d, n)) && k < LIMIT32 && d < LIMIT32 && n < LIMIT32
    ensures HeaderIs(f, k, d, n)
  {
    HeaderRead(f, k, d, n);
    VersionPlaced(f, k, d, n);
    Word4Read(f, 4, VERSION);
  }

  lemma {:induction false} RoundBehind(n: nat, k: nat, table: int)
    requires table == 20 + 16 * n + RoundUp(k)
    ensures table == (20 + 16 * n + k + 3) / 4 * 4
  {
    var q := (k + 3) / 4;
    assert 20 + 16 * n + k + 3 == 4 * (5 + 4 * n + q) + (k + 3) % 4;
  }

  lemma {:induction false} ValuesStart(es: seq<Entry>, k: nat)
    requires k == KeyAt(es, |es|)
    ensures DataTableAt(es) == (20 + 16 * |es| + k + 3) / 4 * 4
  {
    KeySizes(es, |es|);
    RoundBehind(|es|, k, DataTableAt(es));
  }

  lemma {:induction false} HeaderAt(f: bytes, es: seq<Entry>, values: nat)
    requires At(f, 0, Header(es)) && values == DataTableAt(es) && values < LIMIT32
    ensures HeaderIs(f, 20 + 16 * |es|, values, |es|)
  {
    HeaderBytes(f, KeyTableAt(es), values, |es|);
  }

  /** The header of the file; the values start on four bytes behind the keys. */
  lemma {:induction false} HeaderTable(es: seq<Entry>)
    requires AllPack(es)
    ensures HeaderIs(File(es), 20 + 16 * |es|, (20 + 16 * |es| + KeyAt(es, |es|) + 3) / 4 * 4, |es|)
  {
    FileIsLaidOut(es);
    HeaderAt(File(es), es, DataTableAt(es));
    ValuesStart(es, KeyAt(es, |es|));
  }

  /** The room of a value: four bytes for a number, the text and its NUL rounded up for a text. */
  function Room(v: Value): int {
    if v.Int? then 4 else (|v.s| + 1 + 3) / 4 * 4
  }

  /** Where the key is, the kind of value, its length and its room, and where it is. */
  predicate IndexIs(f: bytes, at: nat, keyAt: int, v: Value, dataAt: int) {
    && at + 16 <= |f| && Word2(f, at) == keyAt
    && Word2(f, at + 2) == (if v.Int? then 0x404 else 0x204)
    && Word4(f, at + 4) == (if v.Int? then 4 else |v.s| + 1)
    && Word4(f, at + 8) == Room(v) && Word4(f, at + 12) == dataAt
  }

  lemma {:induction false} RoomTable(v: Value)
    ensures MaxLength(v) == Room(v) && Length(v) == (if v.Int? then 4 else |v.s| + 1)
    ensures Format(v) == if v.Int? then 0x404 else 0x204
  {
  }

  lemma {:induction false} IndexBytes(f: bytes, at: nat, k: nat, v: Value, d: nat)
    requires At(f, at, IndexEntry(k, v, d)) && FieldsFit(v, k, d)
    ensures IndexIs(f, at, k, v, d)
  {
    FieldsRead(f, at, k, v, d);
    RoomTable(v);
  }

  lemma {:induction false} IndexBytesAt(f: bytes, es: seq<Entry>, i: nat)
    requires IndexLaid(f, es) && i < |es| && Packs(es, i)
    ensures IndexIs(f, 20 + 16 * i, KeyAt(es, i), es[i].value, DataAt(es, i))
  {
    IndexEntryPlaced(f, es, i);
    IndexBytes(f, 20 + 16 * i, KeyAt(es, i), es[i].value, DataAt(es, i));
  }

  /** The index entry of every key. */
  lemma {:induction false} IndexTable(es: seq<Entry>, i: nat)
    requires AllPack(es) && i < |es|
    ensures IndexIs(File(es), 20 + 16 * i, KeyAt(es, i), es[i].value, DataAt(es, i))
  {
    FileIsLaidOut(es);
    PackUpToFewer(es, |es|, i);
    IndexBytesAt(File(es), es, i);
  }

  /** Keys follow one another, each with its NUL, from the end of the index on. */
  lemma {:induction false} KeyTable(es: seq<Entry>, i: nat)
    requires i < |es|
    ensures KeyAt(es, 0) == 0 && KeyAt(es, i + 1) == KeyAt(es, i) + |es[i].key| + 1
    ensures At(File(es), 20 + 16 * |es| + KeyAt(es, i), es[i].key + [0])
  {
    var f := File(es);
    FileIsLaidOut(es);
    KeyPlaced(es, i);
    AtWithin(f, KeyTableAt(es), KeyBlob(es, |es|), KeyAt(es, i), es[i].key + [NUL]);
  }

  /** A number takes four bytes, the lowest first; a text its bytes and zeros up to its room. */
  predicate ValueIs(f: bytes, at: nat, v: Value) {
    && at + Room(v) <= |f|
    && match v
       case Int(n) => Word4(f, at) == n
       case Utf8(s) => At(f, at, s) && forall j :: at + |s| <= j < at + Room(v) ==> f[j] == 0
  }

  lemma {:induction false} PaddingIsZero(n: nat, i: nat)
    requires i < n
    ensures Padding(n)[i] == 0
    decreases n
  {
    if i < n - 1 {
      PaddingIsZero(n - 1, i);
    }
  }

  lemma {:induction false} TextPlaced(f: bytes, at: nat, s: bytes, n: nat)
    requires At(f, at, s + [NUL] + Padding(n))
    ensures At(f, at, s) && at + |s| + 1 + n <= |f| && forall j :: at + |s| <= j < at + |s| + 1 + n ==> f[j] == 0
  {
    var all, pad := s + [NUL] + Padding(n), Padding(n);
    assert |all| == |s| + 1 + n;
    forall i {:trigger s[i]} | 0 <= i < |s|
      ensures f[at + i] == s[i]
    {
      assert all[i] == s[i];
    }
    forall j | at + |s| <= j < at + |s| + 1 + n
      ensures f[j] == 0
    {
      var i := j - at;
      assert f[at + i] == all[i];
      if i > |s| {
        PaddingIsZero(n, i - |s| - 1);
        assert all[i] == pad[i - |s| - 1];
      }
    }
  }

  lemma {:induction false} ValueBytes(f: bytes, at: nat, v: Value)
    requires At(f, at, Payload(v)) && (v.Int? ==> 0 <= v.n < LIMIT32)
    ensures ValueIs(f, at, v)
  {
    RoomTable(v);
    if v.Int? {
      Word4Read(f, at, v.n);
    } else {
      TextPlaced(f, at, v.s, MaxLength(v) - Length(v));
    }
  }

  /** The value of every key, where its index entry says. */
  lemma {:induction false} ValueTable(es: seq<Entry>, i: nat)
    requires AllPack(es) && i < |es|
    ensures DataAt(es, 0) == 0 && DataAt(es, i + 1) == DataAt(es, i) + Room(es[i].value)
    ensures ValueIs(File(es), DataTableAt(es) + DataAt(es, i), es[i].value)
  {
    ValuesAreInPlace(es, i);
    PackUpToFewer(es, |es|, i);
    RoomTable(es[i].value);
    ValueBytes(File(es), DataTableAt(es) + DataAt(es, i), es[i].value);
  }

  /** At the first place they differ the smaller byte is the first's, or it ends there. */
  predicate Precedes(a: bytes, b: bytes, k: int) {
    0 <= k <= |a| && k < |b| && (forall i :: 0 <= i < k ==> a[i] == b[i]) && (k < |a| ==> a[k] < b[k])
  }

  lemma {:induction false} LessAt(a: bytes, b: bytes) returns (k: nat)
    requires Less(a, b)
    ensures Precedes(a, b, k)
  {
    if a != [] && a[0] == b[0] {
      var m := LessAt(a[1..], b[1..]);
      k := m + 1;
      forall i | 0 <= i < k
        ensures a[i] == b[i]
      {
        if i > 0 {
          assert a[1..][i - 1] == b[1..][i - 1];
        }
      }
    } else {
      k := 0;
    }
  }

  lemma {:induction false} PrecedingIsLess(a: bytes, b: bytes, k: nat)
    requires Precedes(a, b, k)
    ensures Less(a, b)
    decreases k
  {
    if k > 0 {
      assert a[0] == b[0];
      PrecedingIsLess(a[1..], b[1..], k - 1);
    }
  }

  /** The order of the keys is the lexicographic one. */
  lemma {:induction false} LessMeans(a: bytes, b: bytes)
    ensures Less(a, b) <==> exists k :: 0 <= k <= |a| && Precedes(a, b, k)
  {
    if Less(a, b) {
      var k := LessAt(a, b);
    }
    if k :| 0 <= k <= |a| && Precedes(a, b, k) {
      PrecedingIsLess(a, b, k);
    }
  }

  // --------------------------------------------------------------- the tool --

  lemma TablesGrow(es: seq<Entry>, i: nat)
    requires i < |es|
    ensures KeyBlob(es, i + 1) == KeyBlob(es, i) + (es[i].key + [NUL])
    ensures DataBlob(es, i + 1) == DataBlob(es, i) + Payload(es[i].value)
    ensures IndexBlob(es, i + 1)
      == IndexBlob(es, i) + IndexEntry(KeyAt(es, i), es[i].value, DataAt(es, i))
  {
  }

  method PackPayload(v: Value) returns (s: bytes)
    requires v.Int? ==> 0 <= v.n < LIMIT32
    ensures s == Payload(v)
  {
    if v.Int? {
      s := StructPack4(v.n);
    } else {
      s := v.s + [NUL] + Padding(MaxLength(v) - Length(v));
    }
  }

  method PackIndexEntry(keyAt: nat, v: Value, dataAt: nat) returns (s: bytes)
    requires FieldsFit(v, keyAt, dataAt)
    ensures s == IndexEntry(keyAt, v, dataAt)
  {
    var a := StructPack2(keyAt);
    var b := StructPack2(Format(v));
    var c := StructPack4(Length(v));
    var d := StructPack4(MaxLength(v));
    var e := StructPack4(dataAt);
    s := a + b + c + d + e;
  }

  /** The tables of the first `n` entries, all of which fit. */
  ghost predicate Built(es: seq<Entry>, n: nat, keys: bytes, data: bytes, index: bytes) {
    && n <= |es| && PackUpTo(es, n) && |keys| == KeyAt(es, n) && |data| == DataAt(es, n)
    && keys == KeyBlob(es, n) && data == DataBlob(es, n) && index == IndexBlob(es, n)
  }

  method AddEntry(e: Entry, keys: bytes, data: bytes, index: bytes) returns (keys': bytes, data': bytes, index': bytes)
    requires FieldsFit(e.value, |keys|, |data|)
    ensures keys' == keys + (e.key + [NUL]) && data' == data + Payload(e.value)
    ensures index' == index + IndexEntry(|keys|, e.value, |data|)
  {
    var entry := PackIndexEntry(|keys|, e.value, |data|);
    var payload := PackPayload(e.value);
    index' := index + entry;
    keys' := keys + (e.key + [NUL]);
    data' := data + payload;
  }

  lemma NothingBuilt(es: seq<Entry>)
    ensures Built(es, 0, [], [], [])
  {
  }

  /** The loop of `build`; it stops when a field does not fit. */
  method BuildTables(es: seq<Entry>) returns (fits: bool, keys: bytes, data: bytes, index: bytes)
    ensures fits <==> PackUpTo(es, |es|)
    ensures fits ==> Built(es, |es|, keys, data, index)
  {
    fits, keys, data, index := true, [], [], [];
    NothingBuilt(es);
    var i := 0;
    while i < |es| && fits
      invariant 0 <= i <= |es|
      invariant fits ==> Built(es, i, keys, data, index)
      invariant !fits ==> !PackUpTo(es, |es|)
      decreases |es| - i, fits
    {
      if FieldsFit(es[i].value, |keys|, |data|) {
        TablesGrow(es, i);
        keys, data, index := AddEntry(es[i], keys, data, index);
        i := i + 1;
      } else {
        MisfitStops(es, i, |es|);
        fits := false;
      }
    }
  }

  /** `build`, or nothing when a field does not fit. */
  method Build(pairs: seq<Entry>) returns (file: Option<bytes>)
    ensures file == if AllPack(Sort(pairs)) then Some(File(Sort(pairs))) else None
  {
    var entries := Sort(pairs);
    var fits, keys, data, index := BuildTables(entries);
    if !fits {
      return None;
    }
    file := Assemble(entries, keys, data, index);
  }

  /** The padding, the header and the joining at the end of `build`. */
  method Assemble(es: seq<Entry>, keys: bytes, data: bytes, index: bytes) returns (file: Option<bytes>)
    requires Built(es, |es|, keys, data, index)
    ensures file == if DataTableAt(es) < LIMIT32 then Some(File(es)) else None
  {
    BlobSizes(es, |es|);
    var keyTable := 20 + |index|;
    var padded := keys + Padding(RoundUp(|keys|) - |keys|);
    var dataTable := keyTable + |padded|;
    assert keyTable == KeyTableAt(es) && dataTable == DataTableAt(es) && padded == PaddedKeys(es);
    if dataTable >= LIMIT32 {
      return None;
    }
    var a := StructPack4(VERSION);
    var b := StructPack4(keyTable);
    var c := StructPack4(dataTable);
    var d := StructPack4(|es|);
    return Some(MAGIC + a + b + c + d + index + padded + data);
  }

  datatype Made = Written(file: bytes) | GivenTwice(key: bytes) | DoesNotFit

  /** The duplicate check of `main` and then `build`: what is written reads back as exactly
    * the pairs given, in strictly increasing key order. */
  method MakeSfo(pairs: seq<Entry>) returns (made: Made)
    requires forall e :: e in pairs ==> NUL !in e.key
    ensures made.GivenTwice? <==> !Distinct(pairs)
    ensures made.DoesNotFit? <==> Distinct(pairs) && !AllPack(Sort(pairs))
    ensures made.GivenTwice? ==> exists i, j :: 0 <= i < j < |pairs| && pairs[i].key == pairs[j].key == made.key
    ensures made.Written? ==>
      && made.file == File(Sort(pairs)) && Read(made.file).Some?
      && Increasing(Read(made.file).value) && multiset(Read(made.file).value) == multiset(pairs)
  {
    var seen: set<bytes> := {};
    for i := 0 to |pairs|
      invariant seen == set e | e in pairs[..i] :: e.key
      invariant Distinct(pairs[..i])
    {
      if pairs[i].key in seen {
        var e :| e in pairs[..i] && e.key == pairs[i].key;
        return GivenTwice(pairs[i].key);
      }
      assert pairs[..i + 1] == pairs[..i] + [pairs[i]];
      seen := seen + {pairs[i].key};
    }
    assert pairs[..|pairs|] == pairs;
    var file := Build(pairs);
    if file.None? {
      return DoesNotFit;
    }
    SortIncreases(pairs);
    forall e | e in Sort(pairs)
      ensures NUL !in e.key
    {
      assert e in multiset(Sort(pairs));
      assert e in pairs;
    }
    FileRoundTrip(Sort(pairs));
    return Written(file.value);
  }
}
