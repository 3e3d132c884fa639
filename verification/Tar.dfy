/** cmd/tar.c: files are written to a tape and read back. */
module Tar {
  import opened Sequences
  import opened Wrappers
  import opened TarFormat
  import TarHeader
  import TarTape

  type Block = seq<int>

  /** A regular file as putfile finds it, and what the archive holds of a file. */
  datatype File = File(name: Str, st: TarHeader.Stat, nlink: int, ino: int, dev: int, content: Str)

  datatype Item = Item(entry: Entry, data: Str)

  datatype Link = Link(ino: int, dev: int, pathname: Str)

  /** Files that tar can store: the numbers fit their fields. */
  ghost predicate Good(f: File) {
    && IsString(f.name) && |f.name| > 0 && TarHeader.Sizes(f.st)
    && f.st.size == |f.content| && forall k :: 0 <= k < |f.content| ==> 0 <= f.content[k] < 256
  }

  // --- what should be in the archive ---

  function Find(links: seq<Link>, ino: int, dev: int): (k: int)
    ensures 0 <= k <= |links| && (k < |links| ==> links[k].ino == ino && links[k].dev == dev)
    ensures forall j :: 0 <= j < k ==> !(links[j].ino == ino && links[j].dev == dev)
  {
    if links == [] then 0
    else if links[0].ino == ino && links[0].dev == dev then 0
    else 1 + Find(links[1..], ino, dev)
  }

  function EntryOf(f: File, link: Option<Str>): Entry {
    Entry(f.name, f.st.mode, f.st.uid, f.st.gid, f.st.size, f.st.mtime, link)
  }

  /** The first name of a file is stored with its contents, every further one as a link to the first. */
  function ItemOf(f: File, links: seq<Link>): Item {
    var k := Find(links, f.ino, f.dev);
    if f.nlink > 1 && k < |links| then Item(EntryOf(f, Some(links[k].pathname)), [])
        else Item(EntryOf(f, None), f.content)
  }

  function LinksAfter(f: File, links: seq<Link>): seq<Link> {
    if |f.name| < NAMSIZ && f.nlink > 1 && Find(links, f.ino, f.dev) == |links|
        then [Link(f.ino, f.dev, f.name)] + links else links
  }

  /** Names that are too long are left out. */
  function Archived(files: seq<File>, links: seq<Link>): seq<Item> {
    if files == [] then []
    else (if |files[0].name| < NAMSIZ then [ItemOf(files[0], links)]
        else []) + Archived(files[1..], LinksAfter(files[0], links))
  }

  ghost predicate GoodLinks(links: seq<Link>) {
    forall k :: 0 <= k < |links| ==> IsString(links[k].pathname) && |links[k].pathname| < NAMSIZ
  }

  // --- how it is laid out in blocks ---

  function Blocks(size: int): int { (size + TBLOCK - 1) / TBLOCK }

  /** As many blocks of 512 bytes as it takes. */
  lemma BlocksHold(size: int)
    ensures 512 * (Blocks(size) - 1) < size <= 512 * Blocks(size)
  {
  }

  /** The blocks hold the data; what fills up the last one does not matter. */
  ghost predicate DataIn(bs: seq<Block>, data: Str)
    decreases |data|
  {
    if data == [] then bs == []
    else
      var m := if |data| < TBLOCK then |data| else TBLOCK;
      bs != [] && |bs[0]| == TBLOCK && bs[0][..m] == data[..m] && DataIn(bs[1..], data[m..])
  }

  lemma {:induction false} DataLength(bs: seq<Block>, data: Str)
    requires DataIn(bs, data)
    ensures |bs| == Blocks(|data|)
    decreases |data|
  {
    if data != [] {
      var m := if |data| < TBLOCK then |data| else TBLOCK;
      DataLength(bs[1..], data[m..]);
    }
  }

  ghost predicate ItemIn(bs: seq<Block>, x: Item) {
    && Storable(x.entry) && (x.entry.link.Some? ==> x.data == []) && (x.entry.link.None? ==> x.entry.size == |x.data|)
    && bs != [] && Header(bs[0], x.entry) && DataIn(bs[1..], x.data)
  }

  /** These blocks are these items, and nothing else. */
  ghost predicate Encoded(bs: seq<Block>, items: seq<Item>)
    decreases |items|
  {
    if items == [] then bs == []
    else
      var n := 1 + Blocks(|items[0].data|);
      n <= |bs| && ItemIn(bs[..n], items[0]) && Encoded(bs[n..], items[1..])
  }

  predicate EmptyBlock(b: Block) { |b| == TBLOCK && forall k :: 0 <= k < TBLOCK ==> b[k] == 0 }

  /** The items, and two empty blocks after them. */
  ghost predicate Archive(bs: seq<Block>, items: seq<Item>) {
    exists n :: 0 <= n < |bs| - 1 && Encoded(bs[..n], items) && EmptyBlock(bs[n]) && EmptyBlock(bs[n + 1])
  }

  lemma EncodedCons(bs: seq<Block>, cs: seq<Block>, x: Item, items: seq<Item>)
    requires ItemIn(bs, x) && Encoded(cs, items)
    ensures Encoded(bs + cs, [x] + items)
  {
    hide ItemIn, Blocks;
    ItemLength(bs, x);
    assert (bs + cs)[..|bs|] == bs && (bs + cs)[|bs|..] == cs && ([x] + items)[1..] == items;
  }

  lemma {:induction false} EncodedSnoc(bs: seq<Block>, items: seq<Item>, cs: seq<Block>, x: Item)
    requires Encoded(bs, items) && ItemIn(cs, x)
    ensures Encoded(bs + cs, items + [x])
    decreases |items|
  {
    hide ItemIn, Blocks, Encoded;
    if items == [] {
      NoBlocks(bs, items);
      Nothing();
      EncodedCons(cs, [], x, []);
      assert bs + cs == cs + [] && items + [x] == [x] + [];
    } else {
      var n := BlocksOfFirst(bs, items);
      EncodedSnoc(bs[n..], items[1..], cs, x);
      EncodedCons(bs[..n], bs[n..] + cs, items[0], items[1..] + [x]);
      FrontApart(bs, n, cs);
      FrontApart(items, 1, [x]);
      assert items[..1] == [items[0]];
    }
  }

  lemma NoBlocks(bs: seq<Block>, items: seq<Item>)
    requires Encoded(bs, items) && items == []
    ensures bs == []
  {
  }

  /** The blocks of the first item. */
  lemma BlocksOfFirst(bs: seq<Block>, items: seq<Item>) returns (n: nat)
    requires Encoded(bs, items) && items != []
    ensures n <= |bs| && ItemIn(bs[..n], items[0]) && Encoded(bs[n..], items[1..])
  {
    hide ItemIn, Blocks;
    BlocksPositive(|items[0].data|);
    n := 1 + Blocks(|items[0].data|);
  }

  lemma FrontApart<T>(s: seq<T>, n: nat, t: seq<T>)
    requires n <= |s|
    ensures s + t == s[..n] + (s[n..] + t)
  {
  }

  lemma BlocksPositive(size: int)
    requires size >= 0
    ensures Blocks(size) >= 0
  {
  }

  lemma ItemLength(cs: seq<Block>, x: Item)
    requires ItemIn(cs, x)
    ensures |cs| == 1 + Blocks(|x.data|)
  {
    DataLength(cs[1..], x.data);
  }

  // --- writing ---

  /** A blocking factor of zero becomes one at the first write. */
  predicate Kept(was: int, nblock: int) { nblock == was || (was == 0 && nblock == 1) }

  class Archiver {
    const tape: TarTape.Writer
    const head: TarHeader.Block
    var ihead: seq<Link>
    /** A block buffer: what is left in it from the last file fills up the next. */
    var buf: Block

    constructor (nblock: nat)
      requires nblock <= TarTape.NBLOCK
      ensures Valid() && ihead == [] && tape.Stream() == [] && fresh(tape) && fresh(tape.tbuf) && fresh(head)
          && fresh(head.dblock)
      ensures tape.nblock == nblock
    {
      tape := new TarTape.Writer(nblock);
      head := new TarHeader.Block();
      ihead, buf := [], seq(TBLOCK, i => 0);
    }

    ghost predicate Valid()
      reads this, tape, head
    {
      && tape.Valid() && head.dblock.Length == TBLOCK && |buf| == TBLOCK && GoodLinks(ihead)
    }

    /** The search for the first name of a file. */
    method FindLink(ino: int, dev: int) returns (k: int)
      ensures k == Find(ihead, ino, dev)
    {
      k := 0;
      assert ihead[0..] == ihead;
      while k < |ihead|
        invariant 0 <= k <= |ihead| && Find(ihead, ino, dev) == k + Find(ihead[k..], ino, dev)
      {
        if ihead[k].ino == ino && ihead[k].dev == dev {
          return;
        }
        assert ihead[k..][1..] == ihead[k + 1..];
        k := k + 1;
      }
    }

    /** The file's bytes, block by block. */
    method PutData(content: Str) returns (ghost cs: seq<Block>)
      requires Valid()
      modifies this`buf, tape, tape.tbuf
      ensures Valid() && tape.Stream() == old(tape.Stream()) + cs && DataIn(cs, content)
      ensures Kept(old(tape.nblock), tape.nblock)
    {
      hide DataIn;
      var blocks := Blocks(|content|);
      var pos := 0;
      cs := [];
      NoData();
      ghost var start := tape.Stream();
      assert start + [] == start && content[..0] == [];
      while pos < |content| && blocks > 0
        invariant Valid() && 0 <= pos <= |content| && blocks == Blocks(|content| - pos)
            && (pos < |content| ==> pos % TBLOCK == 0)
        invariant tape.Stream() == start + cs && DataIn(cs, content[..pos])
        invariant Kept(old(tape.nblock), tape.nblock)
        decreases |content| - pos
      {
        var i := if |content| - pos < TBLOCK then |content| - pos else TBLOCK;
        buf := content[pos..pos + i] + buf[i..];
        tape.WriteTape(buf);
        Assoc(start, cs, [buf]);
        DataSnoc(cs, content, pos, i, buf);
        cs := cs + [buf];
        pos := pos + i;
        blocks := blocks - 1;
      }
      BlocksLeft(|content| - pos);
      assert content[..pos] == content;
    }

    /** One more name of a file in the archive: its header says of which. */
    method PutLinkItem(f: File, pathname: Str) returns (ghost cs: seq<Block>)
      requires Valid() && Good(f) && |f.name| < NAMSIZ && TarHeader.Unsigned(head.dblock[..], EntryOf(f, None))
      requires IsString(pathname) && |pathname| < NAMSIZ
      modifies tape, tape.tbuf, head.dblock
      ensures Valid() && tape.Stream() == old(tape.Stream()) + cs && ItemIn(cs, Item(EntryOf(f, Some(pathname)), []))
      ensures Kept(old(tape.nblock), tape.nblock) && tape.nblock > 0
    {
      hide DataIn, Header, TarHeader.Unsigned, TarHeader.Put;
      TarHeader.Linked(head.dblock[..], EntryOf(f, None), pathname);
      head.PutLink(pathname);
      head.Sign(EntryOf(f, Some(pathname)));
      tape.WriteTape(head.dblock[..]);
      cs := [head.dblock[..]];
      NoData();
      assert cs[1..] == [];
    }

    /** A file with its contents. */
    method PutRegular(f: File) returns (ghost cs: seq<Block>)
      requires Valid() && Good(f) && |f.name| < NAMSIZ && TarHeader.Unsigned(head.dblock[..], EntryOf(f, None))
      modifies this`buf, tape, tape.tbuf, head.dblock
      ensures Valid() && tape.Stream() == old(tape.Stream()) + cs && ItemIn(cs, Item(EntryOf(f, None), f.content))
      ensures Kept(old(tape.nblock), tape.nblock) && tape.nblock > 0
    {
      hide DataIn, Header, TarHeader.Unsigned, TarHeader.Put;
      head.Sign(EntryOf(f, None));
      ghost var start, h := tape.Stream(), head.dblock[..];
      tape.WriteTape(head.dblock[..]);
      var data := PutData(f.content);
      cs := [h] + data;
      assert cs[1..] == data;
      Assoc(start, [h], data);
    }

    /** putfile: one item more, or nothing for a name that is too long. */
    method PutFile(f: File) returns (ghost cs: seq<Block>)
      requires Valid() && Good(f)
      modifies this, tape, tape.tbuf, head.dblock
      ensures Valid() && tape.Stream() == old(tape.Stream()) + cs && ihead == LinksAfter(f, old(ihead))
      ensures |f.name| < NAMSIZ ==> ItemIn(cs, ItemOf(f, old(ihead))) && tape.nblock > 0
      ensures |f.name| >= NAMSIZ ==> cs == [] && tape.nblock == old(tape.nblock)
      ensures Kept(old(tape.nblock), tape.nblock)
    {
      hide ItemIn, TarHeader.Modes, TarHeader.Unsigned, TarHeader.Put;
      head.ToModes(f.st);
      TarHeader.Named(head.dblock[..], f.st, if |f.name| < NAMSIZ then f.name else []);
      var ok := head.PutName(f.name);
      cs := [];
      if !ok {
        assert tape.Stream() + [] == tape.Stream();
        return;
      }
      if f.nlink > 1 {
        var k := FindLink(f.ino, f.dev);
        if k < |ihead| {
          cs := PutLinkItem(f, ihead[k].pathname);
          return;
        }
        ihead := [Link(f.ino, f.dev, f.name)] + ihead;
      }
      cs := PutRegular(f);
    }

    /** dorep with the c key: all files, two empty blocks, and the rest of the last record. */
    method Create(files: seq<File>)
      requires Valid() && ihead == [] && tape.Stream() == [] && forall k :: 0 <= k < |files| ==> Good(files[k])
      modifies this, tape, tape.tbuf, head.dblock
      ensures TarTape.Records(tape.mt, tape.nblock) && 0 < tape.nblock <= TarTape.NBLOCK
          && tape.nblock == (if old(tape.nblock) == 0 then 1 else old(tape.nblock))
      ensures Archive(TarTape.Flat(tape.mt), Archived(files, []))
    {
      hide Encoded, ItemIn, Good, Archived;
      var i := 0;
      ghost var items: seq<Item> := [];
      assert files[0..] == files;
      Nothing();
      while i < |files|
        invariant Valid() && 0 <= i <= |files| && Encoded(tape.Stream(), items)
        invariant items + Archived(files[i..], ihead) == Archived(files, [])
        invariant Kept(old(tape.nblock), tape.nblock)
      {
        ghost var bs, links := tape.Stream(), ihead;
        assert Good(files[i]);
        ghost var cs := PutFile(files[i]);
        ArchivedStep(files, i, links, items);
        if |files[i].name| < NAMSIZ {
          EncodedSnoc(bs, items, cs, ItemOf(files[i], links));
          items := items + [ItemOf(files[i], links)];
        } else {
          assert bs + cs == bs;
        }
        i := i + 1;
      }
      ArchivedEnd(files, i, ihead, items);
      ghost var bs := tape.Stream();
      var empty: Block := seq(TBLOCK, j => 0);
      tape.WriteTape(empty);
      tape.WriteTape(empty);
      ghost var stream := tape.Stream();
      assert stream == bs + [empty] + [empty];
      tape.FlushTape();
      Ended(TarTape.Flat(tape.mt), bs, stream, empty, items);
    }
  }

  lemma NoData()
    ensures DataIn([], [])
  {
  }

  lemma Nothing()
    ensures Encoded([], [])
  {
  }

  lemma BlocksLeft(n: int)
    requires n >= 0
    ensures Blocks(n) == 0 <==> n == 0
  {
  }

  /** One block more of the data. */
  lemma {:induction false} DataSnoc(cs: seq<Block>, content: Str, pos: int, i: int, b: Block)
    requires 0 <= pos < |content| && pos % TBLOCK == 0
    requires i == (if |content| - pos < TBLOCK then |content| - pos else TBLOCK)
    requires DataIn(cs, content[..pos]) && |b| == TBLOCK && b[..i] == content[pos..pos + i]
    ensures DataIn(cs + [b], content[..pos + i])
    decreases pos
  {
    hide DataIn;
    if pos == 0 {
      FirstData(cs, content[..pos]);
      assert content[..pos + i] == content[pos..pos + i] && cs + [b] == [b];
      OneBlock(b, content[..pos + i]);
    } else {
      NextData(cs, content[..pos]);
      Slices(content, pos, i);
      DataSnoc(cs[1..], content[TBLOCK..], pos - TBLOCK, i, b);
      assert (cs + [b])[1..] == cs[1..] + [b];
      NextData(cs + [b], content[..pos + i]);
    }
  }

  lemma FirstData(cs: seq<Block>, content: Str)
    requires content == []
    ensures DataIn(cs, content) <==> cs == []
  {
  }

  lemma OneBlock(b: Block, content: Str)
    requires 0 < |content| <= TBLOCK && |b| == TBLOCK && b[..|content|] == content
    ensures DataIn([b], content)
  {
    assert content[|content|..] == [] && [b][1..] == [];
    assert content[..|content|] == content;
  }

  lemma NextData(cs: seq<Block>, content: Str)
    requires |content| >= TBLOCK
    ensures DataIn(cs, content) <==> cs != [] && |cs[0]| == TBLOCK && cs[0][..TBLOCK] == content[..TBLOCK]
                                     && DataIn(cs[1..], content[TBLOCK..])
  {
  }

  /** What is left of the beginnings of `content` without the first block. */
  lemma Slices(content: Str, pos: int, i: int)
    requires TBLOCK <= pos <= pos + i <= |content|
    ensures content[..pos][..TBLOCK] == content[..pos + i][..TBLOCK]
    ensures content[..pos][TBLOCK..] == content[TBLOCK..][..pos - TBLOCK]
    ensures content[..pos + i][TBLOCK..] == content[TBLOCK..][..pos - TBLOCK + i]
    ensures content[TBLOCK..][pos - TBLOCK..pos - TBLOCK + i] == content[pos..pos + i]
  {
  }

  lemma ArchivedStep(files: seq<File>, i: int, links: seq<Link>, items: seq<Item>)
    requires 0 <= i < |files|
    ensures items + Archived(files[i..], links)
            == items + (if |files[i].name| < NAMSIZ then [ItemOf(files[i], links)] else [])
               + Archived(files[i + 1..], LinksAfter(files[i], links))
  {
    hide ItemOf, LinksAfter;
    assert files[i..][1..] == files[i + 1..];
  }

  lemma ArchivedEnd(files: seq<File>, i: int, links: seq<Link>, items: seq<Item>)
    requires i == |files|
    ensures items + Archived(files[i..], links) == items
  {
  }

  lemma Ended(flat: seq<Block>, bs: seq<Block>, stream: seq<Block>, empty: Block, items: seq<Item>)
    requires Encoded(bs, items) && stream == bs + [empty] + [empty] && EmptyBlock(empty)
    requires |flat| >= |stream| && flat[..|stream|] == stream
    ensures Archive(flat, items)
  {
    hide Encoded, EmptyBlock;
    assert flat[..|bs|] == flat[..|stream|][..|bs|] == bs;
    assert flat[|bs|] == flat[..|stream|][|bs|] == empty;
    assert flat[|bs| + 1] == flat[..|stream|][|bs| + 1] == empty;
  }

  // --- reading ---

  /** The first item of an archive, and the archive after it. */
  lemma FirstItem(bs: seq<Block>, items: seq<Item>)
    requires Archive(bs, items)
    ensures bs != []
    ensures items == [] ==> EmptyBlock(bs[0])
    ensures items != [] ==>
              var x, m := items[0], Blocks(|items[0].data|);
              && Storable(x.entry) && (x.entry.link.Some? ==> x.data == [])
                  && (x.entry.link.None? ==> x.entry.size == |x.data|)
              && Header(bs[0], x.entry) && 0 <= m && 1 + m <= |bs|
              && DataIn(bs[1..1 + m], x.data) && Archive(bs[1 + m..], items[1..])
  {
    hide Blocks, DataIn, Header, Storable, EmptyBlock;
    var n :| 0 <= n < |bs| - 1 && Encoded(bs[..n], items) && EmptyBlock(bs[n]) && EmptyBlock(bs[n + 1]);
    if items != [] {
      var x, m := items[0], Blocks(|items[0].data|);
      BlocksPositive(|x.data|);
      assert bs[..n][..1 + m] == bs[..1 + m] && bs[..1 + m][1..] == bs[1..1 + m] && bs[..1 + m][0] == bs[0];
      var rest := bs[1 + m..];
      assert bs[..n][1 + m..] == rest[..n - 1 - m] && rest[n - 1 - m] == bs[n] && rest[n - m] == bs[n + 1];
    }
  }

  class Extractor {
    const tape: TarTape.Reader
    const head: TarHeader.Block

    constructor (mt: seq<seq<Block>>, nblock: nat)
      requires nblock <= TarTape.NBLOCK
      ensures Valid() && fresh(tape) && fresh(tape.tbuf) && fresh(head) && fresh(head.dblock)
      ensures tape.Abs().rest == mt && tape.Abs().nblock == nblock && !tape.Abs().first && tape.Abs().recno == 0
    {
      tape := new TarTape.Reader(mt, nblock);
      head := new TarHeader.Block();
    }

    ghost predicate Valid()
      reads this, tape, head
    {
      tape.Valid() && head.dblock.Length == TBLOCK
    }

    /** The blocks that are still to come, on a tape of records of `r` blocks. */
    ghost predicate Ahead(r: int, bs: seq<Block>)
      reads this, tape, tape.tbuf, head
    {
      Valid() && TarTape.InStep(tape.Abs(), r) && TarTape.Left(tape.Abs()) == bs
    }

    method ReadBlock(ghost r: int, ghost bs: seq<Block>) returns (ok: bool, b: Block)
      requires Ahead(r, bs) && bs != []
      modifies tape, tape.tbuf
      ensures ok && b == bs[0] && Ahead(r, bs[1..])
    {
      hide TarTape.InStep, TarTape.Left, TarTape.ReadStep;
      TarTape.ReadsNext(tape.Abs(), r);
      ok, b := tape.ReadTape();
      assert TarTape.Left(tape.Abs()) == bs[1..];
    }

    /** getdir: the next header; `None` at the end of the archive, and an error for a wrong checksum. */
    method GetDir(ghost r: int, ghost bs: seq<Block>) returns (ok: bool, e: Option<Entry>)
      requires Ahead(r, bs) && bs != [] && |bs[0]| == TBLOCK
      modifies tape, tape.tbuf, head.dblock
      ensures Ahead(r, bs[1..])
      ensures if bs[0][NAME] == 0 then ok && e == None else (ok <==> Decode(bs[0]).Some?) && (ok ==> e == Decode(bs[0]))
    {
      hide TarTape.InStep, TarTape.Left, Scan, CString, Sum;
      var b;
      ok, b := ReadBlock(r, bs);
      head.Store(NAME, b);
      assert head.dblock[..] == b;
      if head.dblock[NAME] == 0 {
        return true, None;
      }
      var h := head.dblock[..];
      var chksum := Scan(h[CHKSUM..]);
      e := Some(Entry(CString(h[NAME..]), Scan(h[MODE..]), Scan(h[UID..]), Scan(h[GID..]), Scan(h[SIZE..]),
          Scan(h[MTIME..]),
                      if h[TYPEFLAG] == LNKTYPE then Some(CString(h[LINKNAME..])) else None));
      var sum := head.Checksum();
      TarHeader.SumIgnores(h, head.dblock[..], TBLOCK);
      ok := chksum == sum;
    }

    /** The data of a file, of the size its header gives. */
    method ReadData(size: int, ghost r: int, ghost cs: seq<Block>, ghost rest: seq<Block>, ghost data: Str)
        returns (ok: bool, out: Str)
      requires Ahead(r, cs + rest) && DataIn(cs, data) && size == |data|
      modifies tape, tape.tbuf
      ensures ok && out == data && Ahead(r, rest)
    {
      hide TarTape.InStep, TarTape.Left;
      var blocks, bytes := Blocks(size), size;
      ghost var left, todo := cs, data;
      out, ok := [], true;
      assert data == [] + todo;
      while blocks > 0
        invariant Ahead(r, left + rest) && DataIn(left, todo) && bytes == |todo| && blocks == Blocks(bytes)
            && out + todo == data
        decreases blocks
      {
        BlocksLeft(bytes);
        ghost var bs := left + rest;
        assert bs[0] == left[0] && bs[1..] == left[1..] + rest;
        var b;
        ok, b := ReadBlock(r, bs);
        var m := if bytes > TBLOCK then TBLOCK else bytes;
        out := out + b[..m];
        Assoc(out[..|out| - m], todo[..m], todo[m..]);
        assert todo == todo[..m] + todo[m..];
        left, todo := left[1..], todo[m..];
        bytes := bytes - m;
        blocks := blocks - 1;
      }
      BlocksLeft(bytes);
      assert left + rest == rest;
    }

    /** doxtract, for all names: the items of the archive, in their order. */
    method Extract(ghost r: int, ghost items: seq<Item>) returns (ok: bool, out: seq<Item>)
      requires Valid() && TarTape.InStep(tape.Abs(), r) && Archive(TarTape.Left(tape.Abs()), items)
      modifies tape, tape.tbuf, head.dblock
      ensures ok && out == items
    {
      hide TarTape.InStep, TarTape.Left, Archive, DataIn, Header, Storable, Decode;
      out, ok := [], true;
      ghost var k, bs := 0, TarTape.Left(tape.Abs());
      assert items[0..] == items;
      while true
        invariant 0 <= k <= |items| && Ahead(r, bs) && Archive(bs, items[k..]) && out == items[..k]
        decreases |items| - k
      {
        FirstItem(bs, items[k..]);
        HeadOf(bs[0], items[k..]);
        var e;
        ok, e := GetDir(r, bs);
        if !ok {
          return;
        }
        if e.None? {
          return;
        }
        var data: Str := [];
        ghost var m := Blocks(|items[k].data|);
        ghost var cs, rest := bs[1..1 + m], bs[1 + m..];
        assert bs[1..] == cs + rest;
        if e.value.link.None? {
          ok, data := ReadData(e.value.size, r, cs, rest, items[k].data);
        } else {
          BlocksLeft(0);
          assert cs == [];
        }
        assert items[k..][1..] == items[k + 1..];
        out := out + [Item(e.value, data)];
        bs := rest;
        k := k + 1;
      }
    }
  }

  /** The block at the head of an archive: the header of its first item, or nothing. */
  lemma HeadOf(b: Block, items: seq<Item>)
    requires items == [] ==> EmptyBlock(b)
    requires items != [] ==> Storable(items[0].entry) && Header(b, items[0].entry)
    ensures |b| == TBLOCK
    ensures items == [] ==> b[NAME] == 0
    ensures items != [] ==> b[NAME] != 0 && Decode(b) == Some(items[0].entry)
  {
    hide Field, Sum, Decode;
    if items != [] {
      HeaderDecodes(b, items[0].entry);
      var s := items[0].entry.name + [0];
      assert b[NAME..NAME + |s|][0] == s[0];
    }
  }

  // --- what comes back ---

  /** The files whose names fit a header. */
  function Short(files: seq<File>): seq<File> {
    if files == [] then [] else (if |files[0].name| < 100 then [files[0]] else []) + Short(files[1..])
  }

  /** Two names of one file that has several. */
  predicate OneFile(f: File, g: File) { f.nlink > 1 && g.nlink > 1 && f.ino == g.ino && f.dev == g.dev }

  /** The first name of such a file. */
  ghost predicate FirstName(files: seq<File>, i: int) {
    0 <= i < |files| && forall j :: 0 <= j < i ==> !OneFile(files[j], files[i])
  }

  ghost predicate LinkTo(files: seq<File>, n: int, i: int, path: Str)
    requires 0 <= n < |files|
  {
    0 <= i < n && FirstName(files, i) && OneFile(files[i], files[n]) && files[i].name == path
  }

  /** What is stored of the n-th file: its name and what stat says of it; and with an earlier name of the same
      file before it a link to the first of these names, otherwise its contents. */
  ghost predicate StoredAs(files: seq<File>, n: int, x: Item) {
    && 0 <= n < |files|
    && var f := files[n];
    && x.entry.name == f.name && x.entry.size == f.st.size && x.entry.mtime == f.st.mtime
    && x.entry.mode == f.st.mode && x.entry.uid == f.st.uid && x.entry.gid == f.st.gid
    && (x.entry.link.Some? <==> exists i :: 0 <= i < n && OneFile(files[i], f))
    && (x.entry.link.None? ==> x.data == f.content)
    && (x.entry.link.Some? ==> x.data == [] && exists i :: LinkTo(files, n, i, x.entry.link.value))
  }

  /** The link buffers are those of the first names so far. */
  ghost predicate Remembers(done: seq<File>, links: seq<Link>) {
    && (forall k :: 0 <= k < |links| ==> OfFirst(done, links[k]))
    && (forall i :: 0 <= i < |done| && done[i].nlink > 1 ==> Known(links, done[i]))
  }

  ghost predicate OfFirst(done: seq<File>, l: Link) { exists i :: IsLink(done, l, i) }

  ghost predicate IsLink(done: seq<File>, l: Link, i: int) {
    && FirstName(done, i) && done[i].nlink > 1 && done[i].ino == l.ino && done[i].dev == l.dev
    && done[i].name == l.pathname
  }

  predicate Known(links: seq<Link>, f: File) {
    exists k :: 0 <= k < |links| && links[k].ino == f.ino && links[k].dev == f.dev
  }

  /** The item of the next file. */
  lemma NextStored(done: seq<File>, links: seq<Link>, f: File)
    requires Remembers(done, links)
    ensures StoredAs(done + [f], |done|, ItemOf(f, links))
  {
    hide FirstName;
    var all, n, k := done + [f], |done|, Find(links, f.ino, f.dev);
    if f.nlink > 1 {
      if k < |links| {
        assert OfFirst(done, links[k]);
        var i :| IsLink(done, links[k], i);
        FirstStays(done, f, i);
        assert all[i] == done[i];
        assert OneFile(all[i], f) && LinkTo(all, n, i, links[k].pathname);
      } else {
        forall i | 0 <= i < n ensures !OneFile(all[i], f) {
          assert all[i] == done[i];
          assert done[i].nlink > 1 ==> Known(links, done[i]);
        }
      }
    }
  }

  lemma FirstStays(done: seq<File>, f: File, i: int)
    requires FirstName(done, i)
    ensures 0 <= i < |done| && FirstName(done + [f], i)
  {
    forall j | 0 <= j < i ensures !OneFile((done + [f])[j], (done + [f])[i]) { assert !OneFile(done[j], done[i]); }
  }

  lemma NextRemembered(done: seq<File>, links: seq<Link>, f: File)
    requires Remembers(done, links) && |f.name| < NAMSIZ
    ensures Remembers(done + [f], LinksAfter(f, links))
  {
    hide FirstName, IsLink;
    var all, n, more := done + [f], |done|, LinksAfter(f, links);
    forall k | 0 <= k < |more| ensures OfFirst(all, more[k]) {
      if more == links || k > 0 {
        var l := if more == links then links[k] else links[k - 1];
        assert OfFirst(done, l);
        var i :| IsLink(done, l, i);
        LinkStays(done, f, l, i);
        assert more[k] == l && IsLink(all, more[k], i);
      } else {
        NewLink(done, links, f);
        assert IsLink(all, more[k], n);
      }
    }
    forall i | 0 <= i < |all| && all[i].nlink > 1 ensures Known(more, all[i]) { KnownAfter(done, links, f, i); }
  }

  lemma LinkStays(done: seq<File>, f: File, l: Link, i: int)
    requires IsLink(done, l, i)
    ensures IsLink(done + [f], l, i)
  {
    hide FirstName;
    FirstStays(done, f, i);
    assert (done + [f])[i] == done[i];
  }

  lemma NewLink(done: seq<File>, links: seq<Link>, f: File)
    requires Remembers(done, links) && LinksAfter(f, links) != links
    ensures IsLink(done + [f], LinksAfter(f, links)[0], |done|)
  {
    hide FirstName;
    var all, n := done + [f], |done|;
    forall i | 0 <= i < n ensures !OneFile(all[i], f) {
      assert all[i] == done[i];
      assert done[i].nlink > 1 ==> Known(links, done[i]);
    }
    IsFirst(all, n);
  }

  lemma IsFirst(all: seq<File>, n: int)
    requires 0 <= n < |all| && forall i :: 0 <= i < n ==> !OneFile(all[i], all[n])
    ensures FirstName(all, n)
  {
  }

  lemma KnownAfter(done: seq<File>, links: seq<Link>, f: File, i: int)
    requires Remembers(done, links) && |f.name| < NAMSIZ && 0 <= i <= |done| && (done + [f])[i].nlink > 1
    ensures Known(LinksAfter(f, links), (done + [f])[i])
  {
    if i < |done| {
      assert (done + [f])[i] == done[i];
      StillKnown(links, f, done[i]);
    } else {
      assert (done + [f])[i] == f;
      NowKnown(links, f);
    }
  }

  lemma StillKnown(links: seq<Link>, f: File, g: File)
    requires Known(links, g)
    ensures Known(LinksAfter(f, links), g)
  {
    var more := LinksAfter(f, links);
    var k :| 0 <= k < |links| && links[k].ino == g.ino && links[k].dev == g.dev;
    if more != links { assert more[k + 1] == links[k]; }
  }

  lemma NowKnown(links: seq<Link>, f: File)
    requires f.nlink > 1 && |f.name| < NAMSIZ
    ensures Known(LinksAfter(f, links), f)
  {
    var more, h := LinksAfter(f, links), Find(links, f.ino, f.dev);
    if h < |links| {
      assert more[h].ino == f.ino;
    } else {
      assert more[0].ino == f.ino;
    }
  }

  /** Every file whose name fits is stored, in its order, and nothing else is. */
  lemma {:induction false} AllStored(done: seq<File>, links: seq<Link>, files: seq<File>)
    requires Remembers(done, links)
    ensures |Archived(files, links)| == |Short(files)|
    ensures forall j :: 0 <= j < |Short(files)| ==>
              StoredAs(done + Short(files), |done| + j, Archived(files, links)[j])
    decreases |files|
  {
    hide StoredAs, Remembers, ItemOf, LinksAfter;
    if files != [] {
      var f, rest := files[0], files[1..];
      if |f.name| < NAMSIZ {
        NextStored(done, links, f);
        NextRemembered(done, links, f);
        var links1, all := LinksAfter(f, links), (done + [f]) + Short(rest);
        AllStored(done + [f], links1, rest);
        StoredSoFar(done + [f], Short(rest), |done|, ItemOf(f, links));
        StoredNext(all, |done|, ItemOf(f, links), Archived(rest, links1));
        Assoc(done, [f], Short(rest));
        assert Short(files) == [f] + Short(rest) && done + Short(files) == all;
        assert Archived(files, links) == [ItemOf(f, links)] + Archived(rest, links1);
      } else {
        TooLong(f, links);
        AllStored(done, links, rest);
        assert Short(files) == Short(rest) && Archived(files, links) == Archived(rest, links);
      }
    }
  }

  lemma StoredNext(all: seq<File>, n: int, x: Item, items: seq<Item>)
    requires StoredAs(all, n, x)
    requires forall j :: 0 <= j < |items| ==> StoredAs(all, n + 1 + j, items[j])
    ensures forall j :: 0 <= j < |[x] + items| ==> StoredAs(all, n + j, ([x] + items)[j])
  {
    hide StoredAs;
    forall j | 0 <= j < |[x] + items| ensures StoredAs(all, n + j, ([x] + items)[j]) {
      if j > 0 { assert StoredAs(all, n + 1 + (j - 1), items[j - 1]) && n + 1 + (j - 1) == n + j; }
    }
  }

  lemma TooLong(f: File, links: seq<Link>)
    requires |f.name| >= NAMSIZ
    ensures LinksAfter(f, links) == links
  {
  }

  /** What comes after a file does not change how it is stored. */
  lemma StoredSoFar(done: seq<File>, more: seq<File>, n: int, x: Item)
    requires StoredAs(done, n, x)
    ensures StoredAs(done + more, n, x)
  {
    var all := done + more;
    forall i | 0 <= i <= n ensures all[i] == done[i] {}
    if x.entry.link.Some? {
      var i :| LinkTo(done, n, i, x.entry.link.value);
      forall j | 0 <= j < i ensures !OneFile(all[j], all[i]) { assert !OneFile(done[j], done[i]); }
      assert LinkTo(all, n, i, x.entry.link.value);
    }
  }

  /** The names of one file show the same contents, and no name is there twice. */
  ghost predicate Consistent(files: seq<File>) {
    && (forall i, j :: 0 <= i < |files| && 0 <= j < |files| && OneFile(files[i], files[j]) ==>
          files[i].content == files[j].content)
    && (forall i, j :: 0 <= i < j < |files| ==> files[i].name != files[j].name)
  }

  /** Under the name `x` the items have these contents, if need be through a link. */
  ghost predicate Holds(items: seq<Item>, x: Item, content: Str) {
    if x.entry.link.None? then x.data == content
    else exists i :: Target(items, i, x.entry.link.value, content)
  }

  /** The one item of that name has data, and these. */
  ghost predicate Target(items: seq<Item>, i: int, path: Str, content: Str) {
    && 0 <= i < |items| && items[i].entry.name == path && items[i].entry.link.None? && items[i].data == content
    && forall j :: 0 <= j < |items| && items[j].entry.name == path ==> j == i
  }

  lemma ContentHeld(files: seq<File>, items: seq<Item>, n: int)
    requires |items| == |files| && Consistent(files) && 0 <= n < |items|
    requires forall j :: 0 <= j < |items| ==> StoredAs(files, j, items[j])
    ensures items[n].entry.name == files[n].name && Holds(items, items[n], files[n].content)
  {
    assert StoredAs(files, n, items[n]);
    if items[n].entry.link.Some? {
      var i :| LinkTo(files, n, i, items[n].entry.link.value);
      assert StoredAs(files, i, items[i]);
      hide OneFile;
      assert items[i].entry.link.None? by {
        assert forall j :: 0 <= j < i ==> !OneFile(files[j], files[i]);
      }
      forall j | 0 <= j < |items| && items[j].entry.name == files[i].name ensures j == i {
        assert StoredAs(files, j, items[j]);
        assert files[j].name == files[i].name;
      }
      assert Target(items, i, items[n].entry.link.value, files[n].content);
    }
  }

  /** And so every file has its contents again under its name. */
  lemma ArchiveRestores(files: seq<File>, out: seq<Item>)
    requires out == Archived(files, []) && Consistent(Short(files))
    ensures |out| == |Short(files)|
    ensures forall n :: 0 <= n < |out| ==>
              out[n].entry.name == Short(files)[n].name && Holds(out, out[n], Short(files)[n].content)
  {
    hide Archived, Consistent, StoredAs, Holds;
    ArchiveStores(files, out);
    forall n | 0 <= n < |out|
      ensures out[n].entry.name == Short(files)[n].name && Holds(out, out[n], Short(files)[n].content)
    {
      ContentHeld(Short(files), out, n);
    }
  }

  lemma ArchiveStores(files: seq<File>, out: seq<Item>)
    requires out == Archived(files, [])
    ensures |out| == |Short(files)| && forall j :: 0 <= j < |out| ==> StoredAs(Short(files), j, out[j])
  {
    hide Archived, StoredAs;
    AllStored([], [], files);
    assert [] + Short(files) == Short(files);
  }

  /** Round trip: what is written with any blocking factor is read back with any that suits its records. */
  method ThroughTape(files: seq<File>, written: nat, read: nat) returns (ok: bool, out: seq<Item>)
    requires written <= TarTape.NBLOCK && read <= TarTape.NBLOCK && forall k :: 0 <= k < |files| ==> Good(files[k])
    requires TarTape.Suits(read, if written == 0 then 1 else written)
    ensures ok && out == Archived(files, [])
    ensures |out| == |Short(files)| && forall j :: 0 <= j < |out| ==> StoredAs(Short(files), j, out[j])
    ensures Consistent(Short(files)) ==> forall n :: 0 <= n < |out| ==>
              out[n].entry.name == Short(files)[n].name && Holds(out, out[n], Short(files)[n].content)
  {
    hide Archive, Archived, StoredAs, Consistent, Holds, Short;
    ArchiveStores(files, Archived(files, []));
    if Consistent(Short(files)) { ArchiveRestores(files, Archived(files, [])); }
    var a := new Archiver(written);
    a.Create(files);
    var x := new Extractor(a.tape.mt, read);
    assert TarTape.Left(x.tape.Abs()) == TarTape.Flat(a.tape.mt);
    ok, out := x.Extract(a.tape.nblock, Archived(files, []));
  }
}
