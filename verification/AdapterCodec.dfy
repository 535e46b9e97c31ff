/** The reader and the writer as written: an offset walked through nested loops,
    and a buffer appended to. */
module AdapterCodec {
  import opened Common
  import opened Utf8
  import opened AdapterFormat

  function Prepend<T>(xs: seq<T>, res: Result<(seq<T>, Bytes), Error>): Result<(seq<T>, Bytes), Error> {
    match res
    case Err(e) => Err(e)
    case Ok((ys, left)) => Ok((xs + ys, left))
  }

  lemma PrependTwice<T>(xs: seq<T>, x: T, res: Result<(seq<T>, Bytes), Error>)
    ensures Prepend(xs, Prepend([x], res)) == Prepend(xs + [x], res)
  {
    if res.Ok? {
      var ys := res.value.0;
      assert xs + ([x] + ys) == (xs + [x]) + ys;
    }
  }

  lemma PrependNothing<T>(res: Result<(seq<T>, Bytes), Error>)
    ensures Prepend([], res) == res
  {
    if res.Ok? {
      assert [] + res.value.0 == res.value.0;
    }
  }

  /** The row loop of one site; `end` is where it leaves the offset. */
  method ReadRowsFrom(blob: Bytes, start: nat, r: Word, out: Word, n: nat, site: nat)
    returns (res: Result<seq<Row>, Error>, end: nat)
    requires start + Times(n, RowSize(r)) <= |blob|
    ensures match ReadRows(blob[start..], r, out, n, site)
            case Err(e) => res == Err(e)
            case Ok((rows, left)) => res == Ok(rows) && end <= |blob| && left == blob[end..]
  {
    hide GetWord, GetWords, RowSize;
    var rows := [];
    end := start;
    var i := 0;
    PrependNothing(ReadRows(blob[start..], r, out, n, site));
    while i < n
      invariant 0 <= i <= n && end + Times(n - i, RowSize(r)) <= |blob|
      invariant ReadRows(blob[start..], r, out, n, site)
             == Prepend(rows, ReadRows(blob[end..], r, out, n - i, site))
    {
      assert end + RowSize(r) <= |blob|;
      SizeIs(r);
      var row: Row;
      assert blob[end..][4..] == blob[end + 4..] && blob[end..][4 + r * 4..] == blob[end + 4 + r * 4..];
      var index := GetWord(blob[end..]);
      if index >= out {
        return Err(RowOutside(site, index, out)), end;
      }
      row := Row(index, GetWords(blob[end + 4..], r), GetWord(blob[end + 4 + r * 4..]));
      assert blob[end..][RowSize(r)..] == blob[end + RowSize(r)..];
      PrependTwice(rows, row, ReadRows(blob[end + RowSize(r)..], r, out, n - i - 1, site));
      rows := rows + [row];
      end := end + 4 + r * 4 + 4;
      i := i + 1;
    }
    assert rows + [] == rows;
    res := Ok(rows);
  }

  lemma SizeIs(r: nat)
    ensures RowSize(r) == 4 + r * 4 + 4
  {
  }

  /** `read`: the file's adapter, or the first thing wrong with it. */
  method ReadBlob(blob: Bytes) returns (res: Result<Adapter, Error>)
    ensures res == Read(blob)
  {
    hide GetWords, ReadRows, Times, RowSize;
    if |blob| < HEADER || blob[..8] != MAGIC {
      return Err(BadMagic);
    }
    var h := GetWords(blob[8..], 6);
    var r, nSites := h[0], h[5];
    var off: nat := HEADER;
    var sites: seq<Site> := [];
    var i := 0;
    PrependNothing(ReadSites(blob[HEADER..], r, 0, nSites));
    while i < nSites
      invariant 0 <= i <= nSites && off <= |blob|
      invariant ReadSites(blob[HEADER..], r, 0, nSites)
             == Prepend(sites, ReadSites(blob[off..], r, i, nSites - i))
    {
      if off + SITE_HEADER > |blob| {
        return Err(TruncatedHeader(i));
      }
      var s := GetWords(blob[off..], 5);
      var kind, layer, kIn, out, nRows := s[0], s[1], s[2], s[3], s[4];
      assert blob[off..][SITE_HEADER..] == blob[off + SITE_HEADER..];
      ghost var start := off;
      off := off + SITE_HEADER;
      if kind >= KINDS {
        return Err(UnknownKind(i, kind));
      }
      var need := Need(r, kIn, nRows);
      if off + need > |blob| {
        return Err(ClaimsTooMuch(i, need, |blob| - off));
      }
      var a := GetWords(blob[off..], Times(r, kIn));
      assert blob[off..][Times(r, kIn) * 4..] == blob[off + Times(r, kIn) * 4..];
      off := off + Times(r, kIn) * 4;
      var rows, end := ReadRowsFrom(blob, off, r, out, nRows, i);
      if rows.Err? {
        return Err(rows.error);
      }
      var site := Site(kind, layer, kIn, out, a, rows.value);
      assert ReadSite(blob[start..], r, i) == Ok((site, blob[end..]));
      PrependTwice(sites, site, ReadSites(blob[end..], r, i + 1, nSites - i - 1));
      sites := sites + [site];
      off := end;
      i := i + 1;
    }
    assert sites + [] == sites;
    if off != |blob| {
      return Err(Trailing(|blob| - off));
    }
    res := Ok(Adapter(r, h[1], h[2], h[3], h[4], sites));
  }

  lemma {:induction false} RowsAppend(rows: seq<Row>, row: Row)
    ensures PutRows(rows + [row]) == PutRows(rows) + PutRow(row)
  {
    if rows == [] {
      assert [] + [row] == [row] && [row][1..] == [];
    } else {
      RowsAppend(rows[1..], row);
      assert (rows + [row])[1..] == rows[1..] + [row];
    }
  }

  lemma {:induction false} SitesAppend(sites: seq<Site>, s: Site)
    requires Countable(sites) && |s.rows| < 0x1_0000_0000
    ensures Countable(sites + [s]) && PutSites(sites + [s]) == PutSites(sites) + PutSite(s)
  {
    if sites == [] {
      assert [] + [s] == [s] && [s][1..] == [];
    } else {
      SitesAppend(sites[1..], s);
      assert (sites + [s])[1..] == sites[1..] + [s];
    }
  }

  /** `write`: the file, or nothing when a count does not fit its field. */
  method WriteBlob(ad: Adapter) returns (res: Option<Bytes>)
    ensures res == if Packable(ad) then Some(Write(ad)) else None
  {
    hide PutWord, PutWords, PutRow, PutRows, PutSites;
    if |ad.sites| >= 0x1_0000_0000 {
      return None;
    }
    var out := MAGIC;
    out := out + PutWords([ad.r, ad.alpha, ad.nLayers, ad.dim, ad.vocab, |ad.sites|]);
    ghost var head := out;
    EmptyWrites();
    var i := 0;
    while i < |ad.sites|
      invariant 0 <= i <= |ad.sites| && Countable(ad.sites[..i])
      invariant out == head + PutSites(ad.sites[..i])
    {
      var s := ad.sites[i];
      if |s.rows| >= 0x1_0000_0000 {
        return None;
      }
      ghost var before := out;
      out := out + PutWords([s.kind, s.layer, s.kIn, s.out, |s.rows|]);
      out := out + PutWords(s.a);
      ghost var front := out;
      var k := 0;
      while k < |s.rows|
        invariant 0 <= k <= |s.rows| && out == front + PutRows(s.rows[..k])
      {
        var row := s.rows[k];
        RowIs(row);
        RowsAppend(s.rows[..k], row);
        assert s.rows[..k] + [row] == s.rows[..k + 1];
        out := out + PutWord(row.index);
        out := out + PutWords(row.b);
        out := out + PutWord(row.m);
        k := k + 1;
      }
      assert s.rows[..k] == s.rows;
      assert out == before + PutSite(s);
      SitesAppend(ad.sites[..i], s);
      assert ad.sites[..i] + [s] == ad.sites[..i + 1];
      i := i + 1;
    }
    assert ad.sites[..i] == ad.sites;
    res := Some(out);
  }

  lemma RowIs(row: Row)
    ensures PutRow(row) == PutWord(row.index) + PutWords(row.b) + PutWord(row.m)
  {
  }

  lemma EmptyWrites()
    ensures PutRows([]) == [] && PutSites([]) == []
  {
  }
}
