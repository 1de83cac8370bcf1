/** The byte stream a protocol runs over: what was written, and what arrives in pieces of the network's choosing. */
module ByteStreams {
  import opened Bytes

  /** The bytes of the pieces, in order. */
  function Joined(pieces: seq<bytes>): bytes {
    if pieces == [] then [] else pieces[0] + Joined(pieces[1..])
  }

  /** One read of at most `max` bytes, and the pieces left after it. */
  function ReadOnce(pieces: seq<bytes>, max: nat): (bytes, seq<bytes>) {
    if pieces == [] then ([], [])
    else if |pieces[0]| <= max then (pieces[0], pieces[1..])
    else (pieces[0][..max], [pieces[0][max..]] + pieces[1..])
  }

  ghost predicate Arriving(pieces: seq<bytes>) {
    forall p | p in pieces :: p != []
  }

  lemma SplitPiece(p: bytes, max: nat, more: seq<bytes>)
    requires 0 < max < |p| && Arriving(more)
    ensures p[..max] + Joined([p[max..]] + more) == p + Joined(more) && Arriving([p[max..]] + more)
  {
    assert ([p[max..]] + more)[1..] == more;
    assert forall q | q in [p[max..]] + more :: q == p[max..] || q in more;
    hide Joined;
    assert p[..max] + (p[max..] + Joined(more)) == p + Joined(more);
  }

  lemma ReadOnceKeepsBytes(pieces: seq<bytes>, max: nat)
    requires Arriving(pieces) && max > 0
    ensures var (chunk, left) := ReadOnce(pieces, max);
            && chunk + Joined(left) == Joined(pieces) && |chunk| <= max
            && (chunk == [] <==> pieces == []) && (pieces == [] <==> Joined(pieces) == [])
            && Arriving(left)
  {
    if pieces != [] {
      var p, more := pieces[0], pieces[1..];
      assert p in pieces;
      assert forall q | q in more :: q in pieces;
      assert Joined(pieces) == p + Joined(more);
      hide Joined;
      if |p| > max {
        SplitPiece(p, max, more);
      }
    }
  }

  class ByteStream {
    var pieces: seq<bytes> // arriving, not yet read
    var sent: bytes        // written

    constructor (pieces: seq<bytes>)
      requires Arriving(pieces)
      ensures Valid() && this.pieces == pieces && sent == []
    {
      this.pieces := pieces;
      sent := [];
    }

    ghost predicate Valid()
      reads this
    {
      Arriving(pieces)
    }

    /** The bytes not yet read, however they arrive. */
    function Rest(): bytes
      reads this
    {
      Joined(pieces)
    }

    method Read(max: nat) returns (chunk: bytes)
      requires Valid() && max > 0
      modifies this`pieces
      ensures Valid()
      ensures (chunk, pieces) == ReadOnce(old(pieces), max)
      ensures chunk + Rest() == old(Rest()) && |chunk| <= max && (chunk == [] <==> old(Rest()) == [])
    {
      ReadOnceKeepsBytes(pieces, max);
      if pieces == [] {
        return [];
      }
      chunk := pieces[0];
      if |chunk| <= max {
        pieces := pieces[1..];
      } else {
        pieces := [chunk[max..]] + pieces[1..];
        chunk := chunk[..max];
      }
    }

    method WriteAll(data: bytes)
      modifies this`sent
      ensures sent == old(sent) + data
    {
      sent := sent + data;
    }

    /** `read_exact`: all `n` bytes, or nothing and the end of the stream. */
    method ReadExact(n: nat) returns (r: Option<bytes>)
      requires Valid()
      modifies this`pieces
      ensures Valid()
      ensures |old(Rest())| >= n ==> r == Some(old(Rest())[..n]) && Rest() == old(Rest())[n..]
      ensures |old(Rest())| < n ==> r == None && Rest() == []
    {
      var got: bytes := [];
      while |got| < n
        invariant Valid() && |got| <= n
        invariant got + Rest() == old(Rest())
        decreases n - |got|
      {
        var chunk := Read(n - |got|);
        if chunk == [] {
          return None;
        }
        got := got + chunk;
      }
      return Some(got);
    }
  }
}
