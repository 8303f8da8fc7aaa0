/** Input that arrives in pieces. */
module Pieces {

  function Flat(pieces: seq<seq<int>>): seq<int> {
    if pieces == [] then [] else pieces[0] + Flat(pieces[1..])
  }
}
