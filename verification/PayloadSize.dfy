/** How many bits a block can take. */
module PayloadSize {
  import opened Counting
  import opened Bits
  import opened HuffmanCodes
  import opened Mtf
  import opened MtfStage
  import opened Wire
  import opened BlockBits
  import MapBits
  import SelectorBits
  import LengthBits
  import opened SymbolBits
  import opened WholeBlock
  import opened StreamBits
  import opened TableChoice

  /** Codes of at most 17 bits, one selector for every 50 symbols, and at most one symbol more than the block has bytes. */
  ghost predicate Compact(p: Payload, n: nat) {
    && |p.syms| <= n + 1 && G_SIZE * (|p.sel| - 1) < |p.syms|
    && forall t :: 0 <= t < |p.lens| ==> Lengths(p.lens[t], 1, MAX_LEN)
  }

  /** What headers and tables take at most, and the symbols and selectors of n bytes. */
  function Room(n: nat): nat {
    52000 + 17 * n + n / 8
  }

  lemma {:induction false} RowsSize(inUse: seq<bool>)
    ensures |MapBits.Rows(inUse)| <= |inUse|
  {
    if |inUse| >= MapBits.GROUPS {
      RowsSize(inUse[MapBits.GROUPS..]);
    }
  }

  lemma {:induction false} UnarySize(m: seq<int>)
    requires forall i :: 0 <= i < |m| ==> m[i] < 6
    ensures |SelectorBits.Unary(m)| <= 6 * |m|
  {
    if m != [] {
      UnarySize(m[1..]);
    }
  }

  lemma {:induction false} StepsSize(c: int, l: int)
    ensures |LengthBits.Steps(c, l)| == 2 * (if c < l then l - c else c - l)
    decreases if c < l then l - c else c - l
  {
    if c < l {
      StepsSize(c + 1, l);
    } else if c > l {
      StepsSize(c - 1, l);
    }
  }

  lemma {:induction false} DeltasSize(c: int, row: seq<int>)
    requires 1 <= c <= MAX_LEN && Lengths(row, 1, MAX_LEN)
    ensures |LengthBits.Deltas(c, row)| <= 33 * |row|
    decreases |row|
  {
    if row != [] {
      StepsSize(c, row[0]);
      DeltasSize(row[0], row[1..]);
    }
  }

  lemma {:induction false} TablesSize(lens: seq<seq<int>>, alphaSize: nat)
    requires LensOk(lens, alphaSize) && alphaSize <= 258 && forall t :: 0 <= t < |lens| ==> Lengths(lens[t], 1, MAX_LEN)
    ensures |LengthBits.LengthBits(lens)| <= 8519 * |lens|
  {
    if lens != [] {
      if lens[0] != [] {
        DeltasSize(lens[0][0], lens[0]);
      }
      TablesSize(lens[1..], alphaSize);
    }
  }

  lemma CodeSize(lens: seq<seq<int>>, sel: seq<int>, k: nat, sym: int)
    requires forall t :: 0 <= t < |lens| ==> Lengths(lens[t], 1, MAX_LEN)
    ensures |CodeOf(lens, sel, k, sym)| <= 17
  {
  }

  lemma {:induction false} SymbolsSize(lens: seq<seq<int>>, sel: seq<int>, syms: seq<int>, k: nat)
    requires k <= |syms| && forall t :: 0 <= t < |lens| ==> Lengths(lens[t], 1, MAX_LEN)
    ensures |SymBits(lens, sel, syms, k)| <= 17 * (|syms| - k)
    decreases |syms| - k
  {
    if k < |syms| {
      CodeSize(lens, sel, k, syms[k]);
      SymbolsSize(lens, sel, syms, k + 1);
    }
  }

  lemma LettersSize(m: seq<int>)
    requires InRange(m, 256)
    ensures |Letters(m)| == 8 * |m|
  {
    if m != [] {
      LettersSize(m[1..]);
    }
  }

  lemma HeadSize(crc: nat, origPtr: nat)
    ensures |HeadBits(crc, origPtr)| == 105
  {
    LettersSize(BLOCK_MAGIC);
    BytesSpell(crc, CRC_BYTES);
    BytesSpell(origPtr, ORIG_BYTES);
  }

  lemma StreamHeadSize(level: nat)
    ensures |StreamHead(level)| == 32
  {
    LettersSize(STREAM_MAGIC);
  }

  lemma TrailerSize(c: nat)
    ensures |Trailer(c)| == 80
  {
    LettersSize(END_MAGIC);
    BytesSpell(c, CRC_BYTES);
  }

  lemma SelectorsSize(nGroups: nat, sel: seq<int>)
    requires nGroups <= 6 && InRange(sel, nGroups)
    ensures |SelectorBits.SelectorBits(nGroups, sel)| <= 18 + 6 * |sel|
  {
    SelectorBits.UptoListing(nGroups);
    SelectorBits.MtfUndone(sel, Upto(nGroups));
    UnarySize(SelectorBits.MtfOf(sel, Upto(nGroups)));
  }

  /** A block of n bytes takes at most Room(n) bits. */
  lemma PayloadFits(p: Payload, level: nat, n: nat)
    requires Sound(p, level) && Compact(p, n)
    ensures |PayloadBits(p)| <= Room(n)
  {
    HeadSize(p.crc, p.origPtr);
    RowsSize(p.inUse);
    SelectorsSize(|p.lens|, p.sel);
    TablesSize(p.lens, |UsedList(p.inUse)| + 2);
    SymbolsSize(p.lens, p.sel, p.syms, 0);
    Total(|p.lens|, |p.sel|, |p.syms|, n);
  }

  lemma Total(tables: nat, selectors: nat, symbols: nat, n: nat)
    requires tables <= 6 && symbols <= n + 1 && 50 * (selectors - 1) < symbols
    ensures 105 + 272 + 18 + 6 * selectors + 8519 * tables + 17 * symbols <= Room(n)
  {
  }
}
