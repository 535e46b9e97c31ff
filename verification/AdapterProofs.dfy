/** Reading and writing adapters are inverse to each other. */
module AdapterProofs {
  import opened Common
  import opened Utf8
  import opened AdapterFormat

  // ----- words -----

  lemma WordBack(w: Word, rest: Bytes)
    ensures GetWord(PutWord(w) + rest) == w
  {
    var q1 := w / 0x100;
    var q2 := q1 / 0x100;
    assert w == 0x1_0000 * q2 + 0x100 * (q1 % 0x100) + w % 0x100;
    assert w / 0x1_0000 == q2;
    assert w / 0x100_0000 == q2 / 0x100;
    var b := PutWord(w) + rest;
    assert b[0] == w % 0x100 && b[1] == q1 % 0x100 && b[2] == q2 % 0x100 && b[3] == q2 / 0x100;
  }

  /** The lowest digit of a number in base 256, and what is above it. */
  lemma LowDigit(low: nat, high: nat)
    requires low < 0x100
    ensures (low + 0x100 * high) % 0x100 == low && (low + 0x100 * high) / 0x100 == high
  {
  }

  /** A quotient by 256, one place at a time. */
  lemma TwoPlaces(w: nat)
    ensures w / 0x1_0000 == w / 0x100 / 0x100
  {
    var q, r := w / 0x100 / 0x100, w - 0x1_0000 * (w / 0x100 / 0x100);
    assert 0 <= r < 0x1_0000;
  }

  lemma ThreePlaces(w: nat)
    ensures w / 0x100_0000 == w / 0x100 / 0x100 / 0x100
  {
    var q, r := w / 0x100 / 0x100 / 0x100, w - 0x100_0000 * (w / 0x100 / 0x100 / 0x100);
    assert 0 <= r < 0x100_0000;
  }

  lemma DigitsOf(b0: Byte, b1: Byte, b2: Byte, b3: Byte)
    ensures var w := b0 as int + 0x100 * (b1 as int) + 0x1_0000 * (b2 as int) + 0x100_0000 * (b3 as int);
            w % 0x100 == b0 && w / 0x100 % 0x100 == b1 && w / 0x1_0000 % 0x100 == b2 && w / 0x100_0000 == b3
  {
    var top: nat := b3;
    var mid: nat := b2 as int + 0x100 * top;
    var low: nat := b1 as int + 0x100 * mid;
    var w: nat := b0 as int + 0x100 * low;
    LowDigit(b0, low);
    LowDigit(b1, mid);
    LowDigit(b2, top);
    TwoPlaces(w);
    ThreePlaces(w);
  }

  lemma WordForth(b: Bytes)
    requires |b| >= 4
    ensures PutWord(GetWord(b)) == b[..4]
  {
    DigitsOf(b[0], b[1], b[2], b[3]);
  }

  lemma {:induction false} WordsBack(ws: seq<Word>, rest: Bytes)
    ensures GetWords(PutWords(ws) + rest, |ws|) == ws
  {
    if ws != [] {
      hide GetWord, PutWord;
      var b := PutWords(ws) + rest;
      var more := PutWords(ws[1..]) + rest;
      assert b == PutWord(ws[0]) + more;
      WordBack(ws[0], more);
      WordsBack(ws[1..], rest);
      assert b[4..] == more;
    }
  }

  lemma {:induction false} WordsForth(b: Bytes, n: nat)
    requires |b| >= 4 * n
    ensures PutWords(GetWords(b, n)) == b[..4 * n]
  {
    if n > 0 {
      hide GetWord, PutWord;
      WordForth(b);
      WordsForth(b[4..], n - 1);
      assert GetWords(b, n)[1..] == GetWords(b[4..], n - 1);
      assert b[..4] + b[4..][..4 * (n - 1)] == b[..4 * n];
    }
  }

  lemma {:induction false} TimesIs(n: nat, size: nat)
    ensures Times(n, size) == n * size
  {
    if n > 0 {
      TimesIs(n - 1, size);
      assert n * size == size + (n - 1) * size;
    }
  }

  // ----- rows -----

  lemma PutRowSize(row: Row, r: Word)
    requires |row.b| == r
    ensures |PutRow(row)| == RowSize(r)
  {
  }

  lemma {:induction false} PutRowsSize(rows: seq<Row>, r: Word, out: Word)
    requires forall i | 0 <= i < |rows| :: RowOk(r, out, rows[i])
    ensures |PutRows(rows)| == Times(|rows|, RowSize(r))
  {
    if rows != [] {
      PutRowSize(rows[0], r);
      PutRowsSize(rows[1..], r, out);
    }
  }

  /** The three fields of a row, read off the front of what it was written to. */
  lemma RowBack(row: Row, r: Word, rest: Bytes)
    requires |row.b| == r
    ensures var b := PutRow(row) + rest;
            && GetWord(b) == row.index && GetWords(b[4..], r) == row.b
            && GetWord(b[4 + r * 4..]) == row.m && b[RowSize(r)..] == rest
  {
    hide GetWord, PutWord, GetWords, PutWords;
    var b := PutRow(row) + rest;
    var one := PutWords(row.b) + (PutWord(row.m) + rest);
    assert b == PutWord(row.index) + one;
    assert b[4..] == one;
    assert b[4 + r * 4..] == PutWord(row.m) + rest;
    WordBack(row.index, one);
    WordsBack(row.b, PutWord(row.m) + rest);
    WordBack(row.m, rest);
  }

  lemma {:induction false} RowsBack(rows: seq<Row>, r: Word, out: Word, site: nat, rest: Bytes)
    requires forall i | 0 <= i < |rows| :: RowOk(r, out, rows[i])
    ensures |PutRows(rows) + rest| >= Times(|rows|, RowSize(r))
    ensures ReadRows(PutRows(rows) + rest, r, out, |rows|, site) == Ok((rows, rest))
  {
    hide GetWord, PutWord, GetWords, PutWords, PutRow, RowSize;
    PutRowsSize(rows, r, out);
    if rows == [] {
      assert PutRows(rows) + rest == rest;
    } else {
      var more := PutRows(rows[1..]) + rest;
      assert PutRows(rows) + rest == PutRow(rows[0]) + more;
      assert [rows[0]] + rows[1..] == rows;
      RowBack(rows[0], r, more);
      RowsBack(rows[1..], r, out, site, rest);
    }
  }

  lemma RowForth(b: Bytes, r: Word)
    requires |b| >= RowSize(r)
    ensures PutRow(Row(GetWord(b), GetWords(b[4..], r), GetWord(b[4 + r * 4..]))) == b[..RowSize(r)]
  {
    hide GetWord, PutWord, GetWords, PutWords;
    WordForth(b);
    WordsForth(b[4..], r);
    WordForth(b[4 + r * 4..]);
    assert b[..4] + b[4..][..4 * r] + b[4 + r * 4..][..4] == b[..RowSize(r)];
  }

  lemma {:induction false} RowsForth(b: Bytes, r: Word, out: Word, n: nat, site: nat)
    requires |b| >= Times(n, RowSize(r)) && ReadRows(b, r, out, n, site).Ok?
    ensures var (rows, left) := ReadRows(b, r, out, n, site).value;
            && |rows| == n && (forall i | 0 <= i < |rows| :: RowOk(r, out, rows[i]))
            && b == PutRows(rows) + left
  {
    hide GetWord, PutWord, GetWords, PutWords, PutRow;
    if n == 0 {
      assert PutRows([]) + b == b;
    } else {
      RowForth(b, r);
      var (rows, left) := ReadRows(b, r, out, n, site).value;
      RowsForth(b[RowSize(r)..], r, out, n - 1, site);
      assert rows[1..] == ReadRows(b[RowSize(r)..], r, out, n - 1, site).value.0;
      assert b == b[..RowSize(r)] + b[RowSize(r)..];
    }
  }

  // ----- sites -----

  lemma HeaderBack(s: Site, rest: Bytes)
    requires |s.rows| < 0x1_0000_0000
    ensures var b := PutSite(s) + rest;
            && |b| >= SITE_HEADER && GetWords(b, 5) == [s.kind, s.layer, s.kIn, s.out, |s.rows|]
            && b[SITE_HEADER..] == PutWords(s.a) + (PutRows(s.rows) + rest)
  {
    hide GetWords, PutWords, PutRows;
    var h: seq<Word> := [s.kind, s.layer, s.kIn, s.out, |s.rows|];
    var body := PutWords(s.a) + (PutRows(s.rows) + rest);
    assert PutSite(s) + rest == PutWords(h) + body;
    WordsBack(h, body);
  }

  lemma SiteBack(s: Site, r: Word, site: nat, rest: Bytes)
    requires SiteOk(r, s)
    ensures ReadSite(PutSite(s) + rest, r, site) == Ok((s, rest))
  {
    hide GetWords, PutWords, PutRows, ReadRows, PutSite;
    HeaderBack(s, rest);
    var body := PutWords(s.a) + (PutRows(s.rows) + rest);
    PutRowsSize(s.rows, r, s.out);
    WordsBack(s.a, PutRows(s.rows) + rest);
    assert body[Times(r, s.kIn) * 4..] == PutRows(s.rows) + rest;
    RowsBack(s.rows, r, s.out, site, rest);
  }

  lemma {:induction false} SitesBack(sites: seq<Site>, r: Word, site: nat, rest: Bytes)
    requires SitesOk(r, sites)
    ensures ReadSites(PutSites(sites) + rest, r, site, |sites|) == Ok((sites, rest))
    decreases |sites|
  {
    hide PutSite, ReadSite;
    if sites == [] {
      assert PutSites(sites) + rest == rest;
    } else {
      var more := PutSites(sites[1..]) + rest;
      assert PutSites(sites) + rest == PutSite(sites[0]) + more;
      assert [sites[0]] + sites[1..] == sites;
      SiteBack(sites[0], r, site, more);
      SitesBack(sites[1..], r, site + 1, rest);
    }
  }

  lemma SiteForth(b: Bytes, r: Word, site: nat)
    requires ReadSite(b, r, site).Ok?
    ensures var (s, left) := ReadSite(b, r, site).value;
            SiteOk(r, s) && b == PutSite(s) + left
  {
    hide GetWords, PutWords, PutRows, ReadRows, RowOk, RowSize, Times;
    var h := GetWords(b, 5);
    var body := b[SITE_HEADER..];
    var cut := Times(r, h[2]) * 4;
    var (s, left) := ReadSite(b, r, site).value;
    RowsForth(body[cut..], r, h[3], h[4], site);
    SitePieces(b, r, s, left);
  }

  /** The three parts of a site put together again. */
  lemma SitePieces(b: Bytes, r: Word, s: Site, left: Bytes)
    requires |b| >= SITE_HEADER + 4 * |s.a| && |s.rows| < 0x1_0000_0000
    requires GetWords(b, 5) == [s.kind, s.layer, s.kIn, s.out, |s.rows|]
    requires GetWords(b[SITE_HEADER..], |s.a|) == s.a
    requires b[SITE_HEADER..][4 * |s.a|..] == PutRows(s.rows) + left
    ensures b == PutSite(s) + left
  {
    hide GetWords, PutWords, PutRows;
    var body := b[SITE_HEADER..];
    WordsForth(b, 5);
    WordsForth(body, |s.a|);
    assert b == b[..20] + body && body == body[..4 * |s.a|] + body[4 * |s.a|..];
  }

  lemma {:induction false} SitesForth(b: Bytes, r: Word, site: nat, n: nat)
    requires ReadSites(b, r, site, n).Ok?
    ensures var (sites, left) := ReadSites(b, r, site, n).value;
            && |sites| == n && SitesOk(r, sites)
            && b == PutSites(sites) + left
    decreases n
  {
    hide PutSite, ReadSite;
    if n == 0 {
      assert PutSites([]) + b == b;
    } else {
      SiteForth(b, r, site);
      var (s, left) := ReadSite(b, r, site).value;
      SitesForth(left, r, site + 1, n - 1);
      var (sites, end) := ReadSites(b, r, site, n).value;
      assert sites[1..] == ReadSites(left, r, site + 1, n - 1).value.0;
      assert b == PutSite(s) + (PutSites(sites[1..]) + end);
    }
  }

  // ----- whole files -----

  /** A written adapter with anything after it is read back, and what follows is
      all that is left. */
  lemma WrittenReads(ad: Adapter, rest: Bytes)
    requires WellFormed(ad)
    ensures Read(Write(ad) + rest) == if rest == [] then Ok(ad) else Err(Trailing(|rest|))
  {
    hide GetWords, PutWords, PutSites, ReadSites;
    var h: seq<Word> := [ad.r, ad.alpha, ad.nLayers, ad.dim, ad.vocab, |ad.sites|];
    var b := Write(ad) + rest;
    var tail := PutSites(ad.sites) + rest;
    assert b == MAGIC + (PutWords(h) + tail);
    assert b[..8] == MAGIC && b[8..] == PutWords(h) + tail && b[HEADER..] == tail;
    WordsBack(h, tail);
    SitesBack(ad.sites, ad.r, 0, rest);
  }

  lemma {:induction false} RowsDoNotTrail(b: Bytes, r: Word, out: Word, n: nat, site: nat)
    requires |b| >= Times(n, RowSize(r))
    ensures ReadRows(b, r, out, n, site).Err? ==> ReadRows(b, r, out, n, site).error.RowOutside?
  {
    hide GetWord, GetWords;
    if n > 0 && GetWord(b) < out { RowsDoNotTrail(b[RowSize(r)..], r, out, n - 1, site); }
  }

  /** Only the end of the file can trail: no site is refused for that. */
  lemma {:induction false} SitesDoNotTrail(b: Bytes, r: Word, site: nat, n: nat)
    ensures var res := ReadSites(b, r, site, n); res.Err? ==> !res.error.Trailing?
    decreases n
  {
    hide GetWord, GetWords, ReadRows;
    if n > 0 {
      var one := ReadSite(b, r, site);
      if one.Ok? {
        SitesDoNotTrail(one.value.1, r, site + 1, n - 1);
      } else if |b| >= SITE_HEADER {
        var h := GetWords(b, 5);
        var body := b[SITE_HEADER..];
        if Need(r, h[2], h[4]) <= |body| {
          RowsDoNotTrail(body[Times(r, h[2]) * 4..], r, h[3], h[4], site);
        }
      }
    }
  }

  /** A file that is accepted, or refused only for what is left at the end, is a
      well-formed adapter written out and that much after it. */
  lemma WalkedIsWritten(b: Bytes) returns (ad: Adapter, rest: Bytes)
    requires Read(b).Ok? || Read(b).error.Trailing?
    ensures WellFormed(ad) && b == Write(ad) + rest
    ensures Read(b) == if rest == [] then Ok(ad) else Err(Trailing(|rest|))
  {
    hide GetWords, PutWords, PutSites, ReadSites;
    var h := GetWords(b[8..], 6);
    SitesDoNotTrail(b[HEADER..], h[0], 0, h[5]);
    var (sites, left) := ReadSites(b[HEADER..], h[0], 0, h[5]).value;
    ad, rest := Adapter(h[0], h[1], h[2], h[3], h[4], sites), left;
    SitesForth(b[HEADER..], h[0], 0, h[5]);
    WordsForth(b[8..], 6);
    assert h == [ad.r, ad.alpha, ad.nLayers, ad.dim, ad.vocab, |ad.sites|];
    assert b == b[..8] + b[8..][..24] + b[HEADER..];
  }

  lemma WellFormedIsPackable(ad: Adapter)
    requires WellFormed(ad)
    ensures Packable(ad)
  {
  }

  /** A file is accepted exactly when it is a well-formed adapter written out, and
      then it is that adapter that comes back. */
  lemma AcceptedIff(b: Bytes, ad: Adapter)
    ensures Read(b) == Ok(ad) <==> WellFormed(ad) && b == Write(ad)
  {
    hide Read, Write, WellFormed;
    if Read(b) == Ok(ad) {
      var ad', rest := WalkedIsWritten(b);
      WellFormedIsPackable(ad');
      assert Write(ad') + [] == Write(ad');
    }
    if WellFormed(ad) {
      WellFormedIsPackable(ad);
      WrittenReads(ad, []);
      assert Write(ad) + [] == Write(ad);
    }
  }

  /** No accepted file is a proper prefix of another: extended by anything it is
      refused, for exactly that many trailing bytes. */
  lemma NoPrefixAccepted(b: Bytes, more: Bytes)
    requires Read(b).Ok? && more != []
    ensures Read(b + more) == Err(Trailing(|more|))
  {
    hide Read, Write;
    var ad, rest := WalkedIsWritten(b);
    WrittenReads(ad, more);
    assert b == Write(ad);
  }

  /** No accepted file can be cut short unnoticed. */
  lemma CutFilesAreRefused(b: Bytes, n: nat)
    requires Read(b).Ok? && n < |b|
    ensures Read(b[..n]).Err?
  {
    hide Read;
    if Read(b[..n]).Ok? {
      assert b[..n] + b[n..] == b;
      NoPrefixAccepted(b[..n], b[n..]);
    }
  }
}
