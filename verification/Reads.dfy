/** Input that arrives in pieces. */
module Reads {
  import opened Bytes

  /** What one read gives: some bytes, the end of the input, or a failure. */
  datatype Read = Chunk(data: seq<byte>) | End | Failure

  /** The bytes before the first empty read, or nothing if a failure comes first. */
  function Received(inputs: seq<Read>): Result<seq<byte>> {
    if inputs == [] || inputs[0].End? || inputs[0] == Chunk([]) then Ok([])
    else match inputs[0]
      case Failure => Err
      case Chunk(data) =>
        match Received(inputs[1..])
        case Ok(rest) => Ok(data + rest)
        case Err => Err
  }

  function Chunks(pieces: seq<seq<byte>>): seq<Read> {
    if pieces == [] then [] else [Chunk(pieces[0])] + Chunks(pieces[1..])
  }

  function Together(pieces: seq<seq<byte>>): seq<byte> {
    if pieces == [] then [] else pieces[0] + Together(pieces[1..])
  }

  /** Pieces that are not empty are put together up to the end of the input, whatever would follow it. */
  lemma {:induction false} PiecesReceived(pieces: seq<seq<byte>>, stop: Read, rest: seq<Read>)
    requires (forall i :: 0 <= i < |pieces| ==> pieces[i] != []) && (stop.Chunk? ==> stop.data == [])
    ensures Received(Chunks(pieces) + [stop] + rest) == if stop.Failure? then Err else Ok(Together(pieces))
  {
    var inputs := Chunks(pieces) + [stop] + rest;
    if pieces == [] {
      assert inputs[0] == stop;
    } else {
      assert inputs[1..] == Chunks(pieces[1..]) + [stop] + rest;
      PiecesReceived(pieces[1..], stop, rest);
    }
  }
}
