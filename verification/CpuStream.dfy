/** The stream of a CPU profile: words of four bytes, records of words, and how to read them back. */
module CpuStream {
  import opened Basics
  import opened Arith

  type Byte = b: int | 0 <= b < 256

  /** So many samples with one stack. */
  datatype Record = Record(count: nat, stack: seq<nat>)

  // ---------- words ----------

  function Low(w: nat): Byte { w % 256 }

  function Digits(w: nat): (d: seq<Byte>)
    ensures |d| == 4
  {
    [Low(w), Low(w / 256), Low(w / 0x1_0000), Low(w / 0x100_0000)]
  }

  /** How words lie in memory, and so in the file. */
  function Bytes(ws: seq<nat>): (bs: seq<Byte>)
    ensures |bs| == 4 * |ws|
  {
    if ws == [] then [] else Bytes(ws[..|ws| - 1]) + Digits(ws[|ws| - 1])
  }

  function WordOf(d: seq<Byte>): (w: nat)
    requires |d| == 4
  {
    d[0] as int + 256 * (d[1] as int) + 0x1_0000 * (d[2] as int) + 0x100_0000 * (d[3] as int)
  }

  function Words(bs: seq<Byte>): (ws: seq<nat>) {
    if |bs| < 4 then [] else Words(bs[..|bs| - 4]) + [WordOf(bs[|bs| - 4..])]
  }

  ghost predicate Fit(ws: seq<nat>) {
    forall i :: 0 <= i < |ws| ==> ws[i] < WIDTH
  }

  lemma DivideOn(w: nat, a: nat)
    requires a == 256 || a == 0x1_0000
    ensures w / a == (w / a / 256) * 256 + w / a % 256 && w / a / 256 == w / (256 * a)
  {
    if a == 256 { assert 256 * a == 0x1_0000; } else { assert 256 * a == 0x100_0000; }
  }

  lemma Places(w: nat)
    requires w < WIDTH
    ensures w == w % 256 + 256 * (w / 256 % 256) + 0x1_0000 * (w / 0x1_0000 % 256) + 0x100_0000 * (w / 0x100_0000 % 256)
  {
    DivideOn(w, 256);
    DivideOn(w, 0x1_0000);
    assert w / 0x100_0000 < 256;
  }

  lemma WordDigits(w: nat)
    requires w < WIDTH
    ensures WordOf(Digits(w)) == w
  {
    Places(w);
  }

  /** Words read back from their bytes. */
  lemma {:induction false} WordsOfBytes(ws: seq<nat>)
    requires Fit(ws)
    ensures Words(Bytes(ws)) == ws
  {
    if ws != [] {
      var rest, w := ws[..|ws| - 1], ws[|ws| - 1];
      WordsOfBytes(rest);
      WordDigits(w);
      assert Bytes(ws)[..|Bytes(ws)| - 4] == Bytes(rest);
      assert Bytes(ws)[|Bytes(ws)| - 4..] == Digits(w);
    }
  }

  lemma {:induction false} BytesJoin(xs: seq<nat>, ys: seq<nat>)
    ensures Bytes(xs + ys) == Bytes(xs) + Bytes(ys)
    decreases |ys|
  {
    if ys == [] {
      assert xs + ys == xs;
    } else {
      BytesJoin(xs, ys[..|ys| - 1]);
      assert (xs + ys)[..|xs + ys| - 1] == xs + ys[..|ys| - 1];
    }
  }

  // ---------- records ----------

  function Encode(r: Record): seq<nat> { [r.count, |r.stack|] + r.stack }

  function EncodeAll(rs: seq<Record>): seq<nat> {
    if rs == [] then [] else EncodeAll(rs[..|rs| - 1]) + Encode(rs[|rs| - 1])
  }

  function Header(period: nat): seq<nat> { [0, 3, 0, period, 0] }

  const TRAILER: seq<nat> := [0, 1, 0]

  /** The next n words, and what comes after them. */
  function ReadWords(bs: seq<Byte>, n: nat): (r: Option<(seq<nat>, seq<Byte>)>)
    ensures r.Some? ==> |r.value.0| == n && |r.value.1| + 4 * n == |bs|
  {
    if |bs| < 4 * n then None
    else
      WordCount(bs[..4 * n], n);
      Some((Words(bs[..4 * n]), bs[4 * n..]))
  }

  lemma {:induction false} WordCount(bs: seq<Byte>, n: nat)
    requires |bs| == 4 * n
    ensures |Words(bs)| == n
  {
    if n > 0 { WordCount(bs[..|bs| - 4], n - 1); }
  }

  /** Reads records up to the trailer, and says what comes after it. */
  function DecodeRecords(bs: seq<Byte>): Option<(seq<Record>, seq<Byte>)>
    decreases |bs|
  {
    var head := ReadWords(bs, 2);
    if head.None? then None
    else
      var count, depth := head.value.0[0], head.value.0[1];
      var body := ReadWords(head.value.1, depth);
      if body.None? then None
      else if count == 0 then if body.value.0 == [0] then Some(([], body.value.1)) else None
      else
        var more := DecodeRecords(body.value.1);
        if more.None? then None else Some(([Record(count, body.value.0)] + more.value.0, more.value.1))
  }

  /** Reads a whole stream: its sampling period, its records, and what comes after it in the file. */
  function Decode(bs: seq<Byte>): Option<(nat, seq<Record>, seq<Byte>)> {
    var head := ReadWords(bs, 5);
    if head.None? || head.value.0 != Header(head.value.0[3]) then None
    else
      var rs := DecodeRecords(head.value.1);
      if rs.None? then None else Some((head.value.0[3], rs.value.0, rs.value.1))
  }

  /** What is read from the bytes of some words is those words. */
  lemma ReadBack(ws: seq<nat>, tail: seq<Byte>)
    requires Fit(ws)
    ensures ReadWords(Bytes(ws) + tail, |ws|) == Some((ws, tail))
  {
    WordsOfBytes(ws);
    assert (Bytes(ws) + tail)[..4 * |ws|] == Bytes(ws) && (Bytes(ws) + tail)[4 * |ws|..] == tail;
  }

  lemma EncodeLast(rs: seq<Record>)
    requires rs != []
    ensures EncodeAll(rs) == EncodeAll(rs[..|rs| - 1]) + Encode(rs[|rs| - 1])
  {
  }

  lemma {:induction false} EncodeFirst(rs: seq<Record>)
    requires rs != []
    ensures EncodeAll(rs) == Encode(rs[0]) + EncodeAll(rs[1..])
  {
    hide Encode, EncodeAll;
    var k := |rs| - 1;
    EncodeLast(rs);
    if k == 0 {
      NothingEncoded();
      assert rs[..0] == [] && rs[1..] == [];
    } else {
      EncodeFirst(rs[..k]);
      EncodeLast(rs[1..]);
      assert rs[..k][1..] == rs[1..][..k - 1];
      Associate(Encode(rs[0]), EncodeAll(rs[..k][1..]), Encode(rs[k]));
    }
  }

  lemma NothingEncoded()
    ensures EncodeAll([]) == []
  {
  }

  ghost predicate RecordFits(r: Record) {
    0 < r.count < WIDTH && |r.stack| < WIDTH && Fit(r.stack)
  }

  /** The bytes of some records and the trailer begin with those of the first record. */
  lemma FirstBytes(rs: seq<Record>, tail: seq<Byte>)
    requires rs != []
    ensures Bytes(EncodeAll(rs) + TRAILER) + tail
         == Bytes([rs[0].count, |rs[0].stack|]) + (Bytes(rs[0].stack) + (Bytes(EncodeAll(rs[1..]) + TRAILER) + tail))
  {
    hide Bytes, EncodeAll;
    var r, rest := rs[0], EncodeAll(rs[1..]) + TRAILER;
    EncodeFirst(rs);
    assert EncodeAll(rs) + TRAILER == Encode(r) + rest;
    BytesJoin(Encode(r), rest);
    BytesJoin([r.count, |r.stack|], r.stack);
  }

  lemma {:induction false} RecordsRoundTrip(rs: seq<Record>, tail: seq<Byte>)
    requires forall i :: 0 <= i < |rs| ==> RecordFits(rs[i])
    ensures DecodeRecords(Bytes(EncodeAll(rs) + TRAILER) + tail) == Some((rs, tail))
    decreases |rs|
  {
    hide Bytes, EncodeAll, ReadWords;
    if rs == [] {
      NothingEncoded();
      assert EncodeAll(rs) + TRAILER == [0, 1] + [0];
      BytesJoin([0, 1], [0]);
      Associate(Bytes([0, 1]), Bytes([0]), tail);
      ReadBack([0, 1], Bytes([0]) + tail);
      ReadBack([0], tail);
    } else {
      var r, after := rs[0], Bytes(EncodeAll(rs[1..]) + TRAILER) + tail;
      FirstBytes(rs, tail);
      ReadBack([r.count, |r.stack|], Bytes(r.stack) + after);
      ReadBack(r.stack, after);
      RecordsRoundTrip(rs[1..], tail);
      assert [r] + rs[1..] == rs;
    }
  }

  function Stream(period: nat, rs: seq<Record>): seq<nat> { Header(period) + EncodeAll(rs) + TRAILER }

  /**
   A reader of the file gets back the period and exactly the records that were written, in
   order; and it finds the end of the stream, whatever comes after it.
   */
  lemma StreamRoundTrip(period: nat, rs: seq<Record>, tail: seq<Byte>)
    requires period < WIDTH && forall i :: 0 <= i < |rs| ==> RecordFits(rs[i])
    ensures Decode(Bytes(Stream(period, rs)) + tail) == Some((period, rs, tail))
  {
    hide Bytes, EncodeAll, ReadWords;
    Associate(Header(period), EncodeAll(rs), TRAILER);
    BytesJoin(Header(period), EncodeAll(rs) + TRAILER);
    Associate(Bytes(Header(period)), Bytes(EncodeAll(rs) + TRAILER), tail);
    ReadBack(Header(period), Bytes(EncodeAll(rs) + TRAILER) + tail);
    RecordsRoundTrip(rs, tail);
  }

  /** Where everything is: five words of header, count, depth and stack of each record, and three words of trailer. */
  lemma StreamLayout(period: nat, rs: seq<Record>, k: nat)
    requires k < |rs|
    ensures var ws, at, r := Stream(period, rs), 5 + |EncodeAll(rs[..k])|, rs[k];
            && |ws| == 5 + |EncodeAll(rs)| + 3 && at + 2 + |r.stack| + 3 <= |ws|
            && ws[..5] == [0, 3, 0, period, 0] && ws[|ws| - 3..] == [0, 1, 0]
            && ws[at] == r.count && ws[at + 1] == |r.stack| && ws[at + 2..at + 2 + |r.stack|] == r.stack
  {
    hide EncodeAll;
    var a, r := EncodeAll(rs[..k]), rs[k];
    var e := Encode(r);
    PrefixEncoded(rs, k + 1);
    assert rs[..k + 1][..k] == rs[..k];
    EncodeLast(rs[..k + 1]);
    var b :| EncodeAll(rs) == EncodeAll(rs[..k + 1]) + b;
    Between(Header(period), a, e, b, TRAILER);
    InFront(Stream(period, rs), 5 + |a|, e, r.stack);
  }

  lemma Between(h: seq<nat>, a: seq<nat>, e: seq<nat>, b: seq<nat>, t: seq<nat>)
    ensures var ws := h + (a + e + b) + t;
            && ws[..|h|] == h && ws[|ws| - |t|..] == t && |h| + |a| + |e| + |t| <= |ws|
            && ws[|h| + |a|..|h| + |a| + |e|] == e
  {
  }

  /** Where the part from `at` on is e, what is behind the first two words of e is two words behind it. */
  lemma InFront(ws: seq<nat>, at: nat, e: seq<nat>, stack: seq<nat>)
    requires at + |e| <= |ws| && ws[at..at + |e|] == e && |e| == 2 + |stack| && e[2..] == stack
    ensures ws[at] == e[0] && ws[at + 1] == e[1] && ws[at + 2..at + 2 + |stack|] == stack
  {
    assert ws[at..at + |e|][2..] == ws[at + 2..at + |e|];
  }

  lemma {:induction false} PrefixEncoded(rs: seq<Record>, k: nat)
    requires k <= |rs|
    ensures exists b :: EncodeAll(rs) == EncodeAll(rs[..k]) + b
  {
    if k == |rs| {
      assert rs[..k] == rs;
      assert EncodeAll(rs) == EncodeAll(rs[..k]) + [];
    } else {
      var front := rs[..|rs| - 1];
      PrefixEncoded(front, k);
      assert front[..k] == rs[..k];
      var b :| EncodeAll(front) == EncodeAll(front[..k]) + b;
      assert EncodeAll(rs) == EncodeAll(rs[..k]) + (b + Encode(rs[|rs| - 1]));
    }
  }

  // ---------- histograms ----------

  /** The samples with stack s among the records. */
  function Count(rs: seq<Record>, s: seq<nat>): nat {
    if rs == [] then 0 else Count(rs[..|rs| - 1], s) + if rs[|rs| - 1].stack == s then rs[|rs| - 1].count else 0
  }

  lemma CountMore(rs: seq<Record>, r: Record, s: seq<nat>)
    ensures Count(rs + [r], s) == Count(rs, s) + if r.stack == s then r.count else 0
  {
    assert (rs + [r])[..|rs|] == rs;
  }

  lemma {:induction false} CountUpdate(rs: seq<Record>, k: nat, r: Record, s: seq<nat>)
    requires k < |rs|
    ensures Count(rs[k := r], s)
         == Count(rs, s) - (if rs[k].stack == s then rs[k].count else 0) + if r.stack == s then r.count else 0
  {
    var n := |rs| - 1;
    if k < n {
      CountUpdate(rs[..n], k, r, s);
      assert rs[k := r][..n] == rs[..n][k := r];
    } else {
      assert rs[k := r][..n] == rs[..n];
    }
  }

  lemma {:induction false} CountPart(rs: seq<Record>, k: nat, s: seq<nat>)
    requires k < |rs|
    ensures Count(rs, s) >= if rs[k].stack == s then rs[k].count else 0
  {
    if k < |rs| - 1 { CountPart(rs[..|rs| - 1], k, s); }
  }
}
