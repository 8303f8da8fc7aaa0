/** The resumable decoder: it stops at any request for bits when its input runs out and goes on from there later. */
module Decoder {
  import opened Bits
  import opened BitStream
  import opened Pieces
  import opened Wire
  import opened WireBlocks

  datatype Code = NeedsInput | BlockDone | StreamDone | MagicError | DataError

  lemma Served(s: St, t: St, x: nat, before: seq<Bit>, after: seq<Bit>, more: seq<Bit>)
    requires Ok(s) && Want(s) >= 1 && x < Pow2(Want(s)) && t == Next(s, x) && before == Spell(x, Want(s)) + after
    ensures Run(s, before + more) == Run(t, after + more)
  {
    RunStep(s, x, after + more);
    Assoc(Spell(x, Want(s)), after, more);
  }

  class Decoder {
    const reader: BitReader
    var state: Label
    var vars: Vars

    ghost predicate Valid()
      reads `state, `vars, reader
    {
      reader.Valid() && Ok(St(state, vars)) && Known(St(state, vars))
    }

    ghost function Now(): St
      reads `state, `vars
    {
      St(state, vars)
    }

    /** Where the decoder will stop when it is given more bits, and which bits it will leave over. */
    ghost function Outlook(more: seq<Bit>): (St, seq<Bit>)
      requires Valid()
      reads `state, `vars, reader
    {
      Run(Now(), reader.Pending() + more)
    }

    constructor ()
      ensures Valid() && Now() == Start() && vars.done == [] && reader.Pending() == [] && reader.input == [] && fresh(reader)
    {
      reader := new BitReader();
      state, vars := Start().at, Start().v;
    }

    /** One request for bits: either it is served, or all input has been taken and the request can be repeated. */
    method Step() returns (ok: bool)
      requires Valid() && Want(Now()) > 0
      modifies this, reader
      ensures Valid()
      ensures ok ==> |reader.Pending()| < |old(reader.Pending())|
      ensures !ok ==> Now() == old(Now()) && vars.done == old(vars.done) && reader.Pending() == old(reader.Pending())
                      && |reader.Pending()| < Want(Now()) && reader.input == []
      ensures forall more {:trigger Outlook(more)} :: Outlook(more) == old(Outlook(more))
      ensures Grows(old(vars.done), vars.done)
    {
      var n := Want(St(state, vars));
      WantBound(Now());
      ghost var s, p := Now(), reader.Pending();
      var x;
      ok, x := reader.GetBits(n);
      if ok {
        NextKnown(s, x);
        var t := Next(St(state, vars), x);
        state, vars := t.at, t.v;
        forall more
          ensures Run(s, p + more) == Outlook(more)
        {
          Served(s, t, x, p, reader.Pending(), more);
        }
      }
    }

    /** BZ2_decompress: runs until a block is complete, the stream ends or is found bad, or the input is used up. */
    method Decompress() returns (code: Code)
      requires Valid()
      modifies this, reader
      ensures Valid() && forall more {:trigger Outlook(more)} :: Outlook(more) == old(Outlook(more))
      ensures code == NeedsInput ==> |reader.Pending()| < Want(Now()) && reader.input == []
      ensures code == StreamDone ==> state.StreamEnd?
      ensures code == MagicError ==> state == Failed(true)
      ensures code == DataError ==> state == Failed(false)
      ensures if code == BlockDone then |vars.done| == old(|vars.done|) + 1 && vars.done[..old(|vars.done|)] == old(vars.done)
              else vars.done == old(vars.done)
      ensures code == BlockDone ==> |reader.Pending()| < |old(reader.Pending())|
    {
      var before := |vars.done|;
      while true
        invariant Valid() && vars.done == old(vars.done) && |reader.Pending()| <= |old(reader.Pending())|
        invariant forall more {:trigger Outlook(more)} :: Outlook(more) == old(Outlook(more))
        decreases |reader.Pending()|
      {
        match state {
          case StreamEnd => return StreamDone;
          case Failed(magic) => return if magic then MagicError else DataError;
          case _ =>
        }
        var ok := Step();
        if |vars.done| != before {
          return BlockDone;
        }
        if !ok {
          return NeedsInput;
        }
      }
    }
  }

  // ----- input in pieces

  ghost predicate BytePieces(pieces: seq<seq<int>>) {
    forall i :: 0 <= i < |pieces| ==> AllBytes(pieces[i])
  }

  lemma {:induction false} FlatBytes(pieces: seq<seq<int>>)
    requires BytePieces(pieces)
    ensures AllBytes(Flat(pieces))
  {
    if pieces != [] {
      FlatBytes(pieces[1..]);
    }
  }

  /** The bits of pieces of input. */
  function PieceBits(pieces: seq<seq<int>>): seq<Bit>
    requires BytePieces(pieces)
  {
    FlatBytes(pieces);
    ByteBits(Flat(pieces))
  }

  lemma PieceBitsMore(pieces: seq<seq<int>>)
    requires BytePieces(pieces) && pieces != []
    ensures PieceBits(pieces) == ByteBits(pieces[0]) + PieceBits(pieces[1..])
  {
    FlatBytes(pieces[1..]);
    ByteBitsAppend(pieces[0], Flat(pieces[1..]));
  }

  /** One piece: supplied, and worked on until it is used up or the stream is over. */
  method FeedOne(d: Decoder, piece: seq<int>) returns (over: bool)
    requires d.Valid() && d.reader.input == [] && AllBytes(piece)
    modifies d, d.reader
    ensures d.Valid() && (over ==> Want(d.Now()) == 0)
    ensures !over ==> d.reader.input == [] && |d.reader.Pending()| < Want(d.Now())
    ensures forall more {:trigger d.Outlook(more)} :: d.Outlook(more) == Run(old(d.Now()), old(d.reader.Pending()) + ByteBits(piece) + more)
  {
    d.reader.Supply(piece);
    label Supplied:
    while true
      invariant d.Valid()
      invariant forall more {:trigger d.Outlook(more)} :: d.Outlook(more) == old@Supplied(d.Outlook(more))
      decreases |d.reader.Pending()|
    {
      var code := d.Decompress();
      if code != BlockDone {
        return code != NeedsInput;
      }
    }
  }

  /** However the input is cut into pieces, the decoder reaches the state, and leaves over the bits, that one run
      over all of it gives. */
  method Feed(d: Decoder, pieces: seq<seq<int>>) returns (ghost left: seq<Bit>)
    requires d.Valid() && d.Now() == Start() && d.reader.Pending() == [] && d.reader.input == [] && BytePieces(pieces)
    modifies d, d.reader
    ensures d.Valid() && (d.Now(), left) == Run(Start(), PieceBits(pieces))
  {
    var i := 0;
    assert pieces[0..] == pieces && [] + PieceBits(pieces) == PieceBits(pieces);
    while i < |pieces|
      invariant i <= |pieces| && d.Valid() && d.reader.input == [] && (d.reader.Pending() == [] || |d.reader.Pending()| < Want(d.Now()))
      invariant d.Outlook(PieceBits(pieces[i..])) == Run(Start(), PieceBits(pieces))
    {
      PieceBitsMore(pieces[i..]);
      assert pieces[i..][1..] == pieces[i + 1..];
      ghost var more := PieceBits(pieces[i + 1..]);
      ghost var p := d.reader.Pending();
      Assoc(p, ByteBits(pieces[i]), more);
      var over := FeedOne(d, pieces[i]);
      i := i + 1;
      assert d.Outlook(more) == Run(Start(), PieceBits(pieces));
      if over {
        return d.reader.Pending() + more;
      }
    }
    assert pieces[i..] == [];
    left := d.reader.Pending();
    assert left + PieceBits(pieces[i..]) == left;
  }
}
