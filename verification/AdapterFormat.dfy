/**
 The adapter file: what a file of given weights is, and what reading one gives.

 A file is the magic, a header of six words, and the sites one after another; it
 carries no lengths but the counts the reader walks by. Floats are the 32-bit
 words they are stored as.
 */
module AdapterFormat {
  import opened Common
  import opened Utf8

  type Word = w: nat | w < 0x1_0000_0000

  datatype Row = Row(index: Word, b: seq<Word>, m: Word)
  datatype Site = Site(kind: Word, layer: Word, kIn: Word, out: Word, a: seq<Word>, rows: seq<Row>)
  datatype Adapter = Adapter(r: Word, alpha: Word, nLayers: Word, dim: Word, vocab: Word, sites: seq<Site>)

  const MAGIC: Bytes := [0x47, 0x4C, 0x41, 0x44, 0x4F, 0x53, 0x41, 0x31]
  const HEADER: nat := 32
  const SITE_HEADER: nat := 20
  const KINDS: nat := 4

  /** Why a file is refused, and at which site. */
  datatype Error =
    | BadMagic
    | TruncatedHeader(site: nat)
    | UnknownKind(site: nat, kind: Word)
    | ClaimsTooMuch(site: nat, need: nat, remain: nat)
    | RowOutside(site: nat, index: Word, out: Word)
    | Trailing(bytes: nat)

  // ----- words -----

  function PutWord(w: Word): (b: Bytes)
    ensures |b| == 4
  {
    [w % 256, w / 0x100 % 256, w / 0x1_0000 % 256, w / 0x100_0000]
  }

  function GetWord(b: Bytes): Word
    requires |b| >= 4
  {
    (b[0] as int) + 0x100 * (b[1] as int) + 0x1_0000 * (b[2] as int) + 0x100_0000 * (b[3] as int)
  }

  function PutWords(ws: seq<Word>): (b: Bytes)
    ensures |b| == 4 * |ws|
  {
    if ws == [] then [] else PutWord(ws[0]) + PutWords(ws[1..])
  }

  function GetWords(b: Bytes, n: nat): (ws: seq<Word>)
    requires |b| >= 4 * n
    ensures |ws| == n
  {
    if n == 0 then [] else [GetWord(b)] + GetWords(b[4..], n - 1)
  }

  // ----- writing -----

  /** What the format's counts can say. Python's `struct.pack` raises beyond it. */
  predicate Packable(ad: Adapter) { |ad.sites| < 0x1_0000_0000 && Countable(ad.sites) }

  predicate Countable(sites: seq<Site>) {
    forall i | 0 <= i < |sites| :: |sites[i].rows| < 0x1_0000_0000
  }

  function PutRow(row: Row): Bytes { PutWord(row.index) + PutWords(row.b) + PutWord(row.m) }

  function PutRows(rows: seq<Row>): Bytes {
    if rows == [] then [] else PutRow(rows[0]) + PutRows(rows[1..])
  }

  function PutSite(s: Site): Bytes
    requires |s.rows| < 0x1_0000_0000
  {
    PutWords([s.kind, s.layer, s.kIn, s.out, |s.rows|]) + PutWords(s.a) + PutRows(s.rows)
  }

  function PutSites(sites: seq<Site>): Bytes
    requires Countable(sites)
  {
    if sites == [] then [] else PutSite(sites[0]) + PutSites(sites[1..])
  }

  function Write(ad: Adapter): Bytes
    requires Packable(ad)
  {
    MAGIC + PutWords([ad.r, ad.alpha, ad.nLayers, ad.dim, ad.vocab, |ad.sites|]) + PutSites(ad.sites)
  }

  // ----- reading -----

  function RowSize(r: nat): nat { 4 + r * 4 + 4 }

  /** The bytes `n` things of a size take, that is n * size, summed one at a time
      as the reader walks them. */
  function Times(n: nat, size: nat): nat {
    if n == 0 then 0 else size + Times(n - 1, size)
  }

  /** The bytes a site's counts claim. */
  function Need(r: nat, kIn: nat, nRows: nat): nat { Times(r, kIn) * 4 + Times(nRows, RowSize(r)) }

  /** `n` rows off the front of what is left, and what is left then. */
  function ReadRows(rest: Bytes, r: nat, out: Word, n: nat, site: nat): Result<(seq<Row>, Bytes), Error>
    requires |rest| >= Times(n, RowSize(r))
  {
    if n == 0 then Ok(([], rest))
    else
      var index := GetWord(rest);
      if index >= out then Err(RowOutside(site, index, out))
      else
        var row := Row(index, GetWords(rest[4..], r), GetWord(rest[4 + r * 4..]));
        match ReadRows(rest[RowSize(r)..], r, out, n - 1, site)
        case Err(e) => Err(e)
        case Ok((rows, left)) => Ok(([row] + rows, left))
  }

  function ReadSite(rest: Bytes, r: Word, site: nat): Result<(Site, Bytes), Error> {
    if |rest| < SITE_HEADER then Err(TruncatedHeader(site))
    else
      var h := GetWords(rest, 5);
      var kind, layer, kIn, out, nRows := h[0], h[1], h[2], h[3], h[4];
      var body := rest[SITE_HEADER..];
      if kind >= KINDS then Err(UnknownKind(site, kind))
      else if Need(r, kIn, nRows) > |body| then Err(ClaimsTooMuch(site, Need(r, kIn, nRows), |body|))
      else
        match ReadRows(body[Times(r, kIn) * 4..], r, out, nRows, site)
        case Err(e) => Err(e)
        case Ok((rows, left)) => Ok((Site(kind, layer, kIn, out, GetWords(body, Times(r, kIn)), rows), left))
  }

  function ReadSites(rest: Bytes, r: Word, site: nat, n: nat): Result<(seq<Site>, Bytes), Error>
    decreases n
  {
    if n == 0 then Ok(([], rest))
    else
      match ReadSite(rest, r, site)
      case Err(e) => Err(e)
      case Ok((s, left)) =>
        match ReadSites(left, r, site + 1, n - 1)
        case Err(e) => Err(e)
        case Ok((sites, end)) => Ok(([s] + sites, end))
  }

  function Read(blob: Bytes): Result<Adapter, Error> {
    if |blob| < HEADER || blob[..8] != MAGIC then Err(BadMagic)
    else
      var h := GetWords(blob[8..], 6);
      match ReadSites(blob[HEADER..], h[0], 0, h[5])
      case Err(e) => Err(e)
      case Ok((sites, left)) =>
        if left != [] then Err(Trailing(|left|))
        else Ok(Adapter(h[0], h[1], h[2], h[3], h[4], sites))
  }

  // ----- what a reader can hand back -----

  predicate RowOk(r: Word, out: Word, row: Row) { row.index < out && |row.b| == r }

  predicate SiteOk(r: Word, s: Site) {
    s.kind < KINDS && |s.a| == Times(r, s.kIn) && |s.rows| < 0x1_0000_0000 &&
    forall i | 0 <= i < |s.rows| :: RowOk(r, s.out, s.rows[i])
  }

  predicate SitesOk(r: Word, sites: seq<Site>): (ok: bool)
    ensures ok ==> Countable(sites)
  {
    forall i | 0 <= i < |sites| :: SiteOk(r, sites[i])
  }

  predicate WellFormed(ad: Adapter) { |ad.sites| < 0x1_0000_0000 && SitesOk(ad.r, ad.sites) }
}
