/** Where everything in an adapter file stands, byte by byte, and what is wrong with a
    file that is refused. */
module AdapterLayout {
  import opened Common
  import opened Utf8
  import opened AdapterFormat
  import opened AdapterProofs

  /** Four bytes as a number, lowest byte first. */
  function Le(b: Bytes, at: nat): int
    requires at + 4 <= |b|
  {
    var b0: int, b1: int, b2: int, b3: int := b[at], b[at + 1], b[at + 2], b[at + 3];
    b0 + 256 * b1 + 65536 * b2 + 16777216 * b3
  }

  // ----- what is written where -----

  function RowWords(rows: seq<Row>): seq<Word> {
    if rows == [] then [] else [rows[0].index] + rows[0].b + [rows[0].m] + RowWords(rows[1..])
  }

  function SiteWords(sites: seq<Site>): seq<Word>
    requires Countable(sites)
  {
    if sites == [] then []
    else
      var s := sites[0];
      [s.kind, s.layer, s.kIn, s.out, |s.rows|] + s.a + RowWords(s.rows) + SiteWords(sites[1..])
  }

  /** A file is eight letters and words: six of a header, then each site with its five
      counts, its matrix and its rows, a row being an index, a vector and a magnitude. */
  function FileWords(ad: Adapter): seq<Word>
    requires Packable(ad)
  {
    [ad.r, ad.alpha, ad.nLayers, ad.dim, ad.vocab, |ad.sites|] + SiteWords(ad.sites)
  }

  lemma {:induction false} PutWordsConcat(x: seq<Word>, y: seq<Word>)
    ensures PutWords(x + y) == PutWords(x) + PutWords(y)
  {
    hide PutWord;
    if x == [] {
      assert x + y == y;
    } else {
      assert (x + y)[1..] == x[1..] + y;
      PutWordsConcat(x[1..], y);
    }
  }

  lemma OneWord(w: Word)
    ensures PutWords([w]) == PutWord(w)
  {
    assert PutWords([w]) == PutWord(w) + [];
  }

  lemma {:induction false} RowsAreWords(rows: seq<Row>)
    ensures PutRows(rows) == PutWords(RowWords(rows))
  {
    hide PutWord, PutWords;
    if rows == [] {
      NoWords();
    } else {
      var row := rows[0];
      RowsAreWords(rows[1..]);
      OneWord(row.index);
      OneWord(row.m);
      PutWordsConcat([row.index], row.b);
      PutWordsConcat([row.index] + row.b, [row.m]);
      PutWordsConcat([row.index] + row.b + [row.m], RowWords(rows[1..]));
    }
  }

  lemma NoWords()
    ensures PutWords([]) == []
  {
  }

  lemma {:induction false} SitesAreWords(sites: seq<Site>)
    requires Countable(sites)
    ensures PutSites(sites) == PutWords(SiteWords(sites))
    decreases |sites|
  {
    hide PutWord, PutWords, PutRows, RowWords;
    if sites == [] {
      NoWords();
    } else {
      var s := sites[0];
      var h: seq<Word> := [s.kind, s.layer, s.kIn, s.out, |s.rows|];
      RowsAreWords(s.rows);
      SitesAreWords(sites[1..]);
      PutWordsConcat(h, s.a);
      PutWordsConcat(h + s.a, RowWords(s.rows));
      PutWordsConcat(h + s.a + RowWords(s.rows), SiteWords(sites[1..]));
    }
  }

  lemma LeShift(front: Bytes, b: Bytes, at: nat)
    requires at + 4 <= |b|
    ensures Le(front + b, |front| + at) == Le(b, at)
  {
  }

  lemma {:induction false} WordsStand(ws: seq<Word>, k: nat)
    requires k < |ws|
    ensures Le(PutWords(ws), 4 * k) == ws[k]
    decreases k
  {
    hide PutWord;
    if k == 0 {
      WordBack(ws[0], PutWords(ws[1..]));
    } else {
      WordsStand(ws[1..], k - 1);
      LeShift(PutWord(ws[0]), PutWords(ws[1..]), 4 * (k - 1));
    }
  }

  /** The file of an adapter: the letters GLADOSA1, and behind them its words, each four
      bytes with the lowest first. */
  lemma FileLayout(ad: Adapter, k: nat)
    requires Packable(ad) && k < |FileWords(ad)|
    ensures var b := Write(ad);
            && |b| == 8 + 4 * |FileWords(ad)|
            && b[..8] == [0x47, 0x4C, 0x41, 0x44, 0x4F, 0x53, 0x41, 0x31]
            && Le(b, 8 + 4 * k) == FileWords(ad)[k]
  {
    hide PutWords, PutSites, SiteWords;
    var h: seq<Word> := [ad.r, ad.alpha, ad.nLayers, ad.dim, ad.vocab, |ad.sites|];
    SitesAreWords(ad.sites);
    PutWordsConcat(h, SiteWords(ad.sites));
    var ws := FileWords(ad);
    assert Write(ad) == MAGIC + PutWords(ws);
    WordsStand(ws, k);
    LeShift(MAGIC, PutWords(ws), 4 * k);
  }

  // ----- what is wrong with a site -----

  lemma WordAt(b: Bytes, at: nat)
    requires at + 4 <= |b|
    ensures GetWord(b[at..]) == Le(b, at)
  {
  }

  lemma {:induction false} WordsAt(b: Bytes, n: nat, k: nat)
    requires 4 * n <= |b| && k < n
    ensures GetWords(b, n)[k] == Le(b, 4 * k)
    decreases k
  {
    if k == 0 {
      WordAt(b, 0);
      assert b[0..] == b;
    } else {
      WordsAt(b[4..], n - 1, k - 1);
    }
  }

  /** The index of row `j`, in rows of 4 + 4 * r + 4 bytes; 0 for rows there are not. */
  function IndexOf(rows: Bytes, r: nat, j: nat): int {
    var at := j * (4 + 4 * r + 4);
    if at + 4 <= |rows| then Le(rows, at) else 0
  }

  /** Row `j` is the first whose index is not below the width. */
  predicate FirstOutside(rows: Bytes, r: nat, width: int, j: nat) {
    IndexOf(rows, r, j) >= width && forall m: nat | m < j :: IndexOf(rows, r, m) < width
  }

  ghost predicate RowFault(rows: Bytes, r: nat, width: int, n: int, i: nat, e: Error) {
    exists j: nat :: j < n && FirstOutside(rows, r, width, j) && e.RowOutside? && e.site == i
                     && e.index == IndexOf(rows, r, j) && e.out == width
  }

  /** What is wrong with the bytes of site `i`, if `e` is: five counts of four bytes
      missing, a kind of 4 or more, more bytes claimed than there are, or a row outside. */
  ghost predicate SiteFault(rest: Bytes, r: Word, i: nat, e: Error) {
    if |rest| < 20 then e == TruncatedHeader(i)
    else
      var kind, kIn, width, nRows := Le(rest, 0), Le(rest, 8), Le(rest, 12), Le(rest, 16);
      if kind >= 4 then e == UnknownKind(i, kind)
      else
        var matrix, rows := 4 * (r * kIn), nRows * (4 + 4 * r + 4);
        if matrix + rows > |rest| - 20 then e == ClaimsTooMuch(i, matrix + rows, |rest| - 20)
        else
          0 <= matrix && 20 + matrix <= |rest| && RowFault(rest[20 + matrix..], r, width, nRows, i, e)
  }

  lemma RowsOn(rows: Bytes, r: nat, j: nat)
    requires |rows| >= RowSize(r)
    ensures IndexOf(rows, r, j + 1) == IndexOf(rows[RowSize(r)..], r, j)
  {
    var size := 4 + 4 * r + 4;
    assert (j + 1) * size == j * size + size;
    assert RowSize(r) == size;
    if j * size + size + 4 <= |rows| { LeFrom(rows, size, j * size); }
  }

  lemma LeFrom(b: Bytes, from: nat, at: nat)
    requires from + at + 4 <= |b|
    ensures Le(b[from..], at) == Le(b, from + at)
  {
  }

  lemma FirstIndex(rows: Bytes, r: nat)
    requires |rows| >= 4
    ensures GetWord(rows) == IndexOf(rows, r, 0)
  {
    assert 0 * (4 + 4 * r + 4) == 0;
    WordAt(rows, 0);
    assert rows[0..] == rows;
  }

  /** The row loop stops at the first row outside, or there is none. */
  lemma {:induction false} RowsStop(rows: Bytes, r: nat, width: Word, n: nat, site: nat) returns (j: nat)
    requires |rows| >= Times(n, RowSize(r))
    ensures var res := ReadRows(rows, r, width, n, site);
            if res.Ok? then forall m: nat | m < n :: IndexOf(rows, r, m) < width
            else j < n && FirstOutside(rows, r, width, j) && res.error == RowOutside(site, IndexOf(rows, r, j), width)
    decreases n
  {
    hide GetWord, GetWords, IndexOf;
    j := 0;
    if n > 0 {
      FirstIndex(rows, r);
      if GetWord(rows) < width {
        var rest := rows[RowSize(r)..];
        var k := RowsStop(rest, r, width, n - 1, site);
        j := k + 1;
        RowsOn(rows, r, k);
        forall m: nat | 0 < m
          ensures IndexOf(rows, r, m) == IndexOf(rest, r, m - 1)
        {
          RowsOn(rows, r, m - 1);
        }
      }
    }
  }

  lemma RowFaultIff(rows: Bytes, r: nat, width: Word, n: nat, i: nat, e: Error)
    requires |rows| >= Times(n, RowSize(r))
    ensures ReadRows(rows, r, width, n, i) == Err(e) <==> RowFault(rows, r, width, n, i, e)
  {
    hide IndexOf, ReadRows;
    var k := RowsStop(rows, r, width, n, i);
    if RowFault(rows, r, width, n, i, e) {
      var j: nat :| j < n && FirstOutside(rows, r, width, j) && e.RowOutside? && e.site == i
                    && e.index == IndexOf(rows, r, j) && e.out == width;
      assert j == k;
    }
  }

  lemma HeaderWords(rest: Bytes)
    requires |rest| >= 20
    ensures var h := GetWords(rest, 5);
            h[0] == Le(rest, 0) && h[2] == Le(rest, 8) && h[3] == Le(rest, 12) && h[4] == Le(rest, 16)
  {
    hide Le, GetWords;
    WordsAt(rest, 5, 0);
    WordsAt(rest, 5, 2);
    WordsAt(rest, 5, 3);
    WordsAt(rest, 5, 4);
  }

  lemma NeedIs(r: nat, kIn: nat, n: nat)
    ensures Need(r, kIn, n) == 4 * (r * kIn) + n * (4 + 4 * r + 4) && Times(r, kIn) * 4 == 4 * (r * kIn)
    ensures Times(n, RowSize(r)) == n * (4 + 4 * r + 4)
  {
    TimesIs(r, kIn);
    TimesIs(n, RowSize(r));
  }

  /** A site is refused for exactly what is wrong with it. */
  lemma SiteFaultIff(rest: Bytes, r: Word, i: nat, e: Error)
    ensures ReadSite(rest, r, i) == Err(e) <==> SiteFault(rest, r, i, e)
  {
    if |rest| >= 20 {
      HeaderWords(rest);
      var h := GetWords(rest, 5);
      NeedIs(r, h[2], h[4]);
      var body := rest[20..];
      if h[0] < 4 && Need(r, h[2], h[4]) <= |body| {
        var rows := body[4 * (r * h[2])..];
        assert rows == rest[20 + 4 * (r * h[2])..];
        RowFaultIff(rows, r, h[3], h[4], i, e);
      }
      hide Le, GetWords, ReadRows, RowFault, Times;
    }
  }

  // ----- what is wrong with a file -----

  /** Sound sites in front do not change what is found behind them. */
  lemma {:induction false} SitesBehind(sites: seq<Site>, r: Word, i: nat, rest: Bytes, m: nat)
    requires SitesOk(r, sites)
    ensures ReadSites(PutSites(sites) + rest, r, i, |sites| + m)
         == match ReadSites(rest, r, i + |sites|, m)
            case Err(e) => Err(e)
            case Ok((more, left)) => Ok((sites + more, left))
    decreases |sites|
  {
    hide PutSite, ReadSite, SiteOk;
    if sites == [] {
      assert PutSites(sites) + rest == rest;
      var res := ReadSites(rest, r, i, m);
      if res.Ok? { assert sites + res.value.0 == res.value.0; }
    } else {
      var more := PutSites(sites[1..]) + rest;
      assert PutSites(sites) + rest == PutSite(sites[0]) + more;
      SiteBack(sites[0], r, i, more);
      SitesBehind(sites[1..], r, i + 1, rest, m);
      var res := ReadSites(rest, r, i + |sites|, m);
      if res.Ok? { assert [sites[0]] + (sites[1..] + res.value.0) == sites + res.value.0; }
    }
  }

  /** The sites read before the first fault, and the bytes it is found in. */
  lemma {:induction false} SitesStop(b: Bytes, r: Word, i: nat, n: nat, e: Error) returns (sites: seq<Site>, rest: Bytes)
    requires ReadSites(b, r, i, n) == Err(e)
    ensures SitesOk(r, sites) && |sites| < n && b == PutSites(sites) + rest && ReadSite(rest, r, i + |sites|) == Err(e)
    decreases n
  {
    hide PutSite, ReadSite;
    var one := ReadSite(b, r, i);
    if one.Err? {
      sites, rest := [], b;
      assert PutSites([]) + b == b;
    } else {
      SiteForth(b, r, i);
      var (s, left) := one.value;
      var more;
      more, rest := SitesStop(left, r, i + 1, n - 1, e);
      sites := [s] + more;
      assert sites[1..] == more;
      assert b == PutSite(s) + (PutSites(more) + rest);
    }
  }

  /** Some sound sites, and then the fault: in the next one of those there should be,
      or, behind the last, bytes that should not be there. */
  ghost predicate FaultBehind(b: Bytes, r: Word, n: nat, sites: seq<Site>, rest: Bytes, e: Error) {
    SitesOk(r, sites) && b == PutSites(sites) + rest &&
    if |sites| < n then SiteFault(rest, r, |sites|, e)
    else |sites| == n && rest != [] && e == Trailing(|rest|)
  }

  /** What is wrong with a file, if `e` is. */
  ghost predicate FileFault(b: Bytes, e: Error) {
    if |b| < 32 || b[..8] != [0x47, 0x4C, 0x41, 0x44, 0x4F, 0x53, 0x41, 0x31] then e == BadMagic
    else
      var r, n := Le(b, 8), Le(b, 28);
      exists sites, rest :: FaultBehind(b[32..], r, n, sites, rest, e)
  }

  lemma FileHeader(b: Bytes)
    requires |b| >= 32
    ensures var h := GetWords(b[8..], 6); h[0] == Le(b, 8) && h[5] == Le(b, 28)
  {
    hide GetWords, Le;
    WordsAt(b[8..], 6, 0);
    WordsAt(b[8..], 6, 5);
    LeFrom(b, 8, 0);
    LeFrom(b, 8, 20);
  }

  /** Every file that is refused is refused for the first thing wrong with it, and for
      nothing else. */
  lemma RefusedIff(b: Bytes, e: Error)
    ensures Read(b) == Err(e) <==> FileFault(b, e)
  {
    hide GetWords, Le, ReadSites, PutSites, SiteFault, ReadSite, SiteOk;
    if |b| >= 32 && b[..8] == MAGIC {
      FileHeader(b);
      var h := GetWords(b[8..], 6);
      var r, n := h[0], h[5];
      forall sites, rest | FaultBehind(b[32..], r, n, sites, rest, e)
        ensures Read(b) == Err(e)
      {
        FaultIsFound(b[32..], r, n, sites, rest, e);
      }
      if Read(b) == Err(e) {
        var sites, rest := FaultIsThere(b[32..], r, n, e);
      }
    }
  }

  lemma FaultIsFound(b: Bytes, r: Word, n: nat, sites: seq<Site>, rest: Bytes, e: Error)
    requires FaultBehind(b, r, n, sites, rest, e)
    ensures match ReadSites(b, r, 0, n)
            case Err(f) => f == e
            case Ok((_, left)) => left != [] && e == Trailing(|left|)
  {
    hide SiteFault, ReadSite, SiteOk, PutSites;
    SitesBehind(sites, r, 0, rest, n - |sites|);
    if |sites| < n { SiteFaultIff(rest, r, |sites|, e); }
  }

  lemma FaultIsThere(b: Bytes, r: Word, n: nat, e: Error) returns (sites: seq<Site>, rest: Bytes)
    requires match ReadSites(b, r, 0, n)
             case Err(f) => f == e
             case Ok((_, left)) => left != [] && e == Trailing(|left|)
    ensures FaultBehind(b, r, n, sites, rest, e)
  {
    hide SiteFault, ReadSite, SiteOk, PutSites, ReadSites;
    match ReadSites(b, r, 0, n)
    case Err(_) =>
      sites, rest := SitesStop(b, r, 0, n, e);
      SiteFaultIff(rest, r, |sites|, e);
    case Ok((s, left)) =>
      SitesForth(b, r, 0, n);
      sites, rest := s, left;
  }
}
