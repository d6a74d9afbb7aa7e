/**
 * Bounded stream capture (`read_with_limit`, src/main.rs:385-398): the loop
 * that drains a child's output pipe into a growing buffer and never lets the
 * buffer pass a byte cap.
 */
module Capture {
  import opened Common

  /** The length of the stack buffer `chunk` that each read fills. */
  const ChunkSize: nat := 8192

  /** The cap `run_process_with_timeout` gives each captured stream: 2 MiB. */
  const CaptureLimit: nat := 2 * 1024 * 1024

  /**
   * What the stream has in store, in order: a run of bytes that a read may
   * return (in pieces, when the read asks for fewer), or a read error. An empty
   * run is a read that returns 0, the end of the stream; so is running out of
   * events.
   */
  datatype Event = Data(bytes: seq<byte>) | Fail

  /** The bytes the stream delivers before its first end of stream or error. */
  function Live(events: seq<Event>): seq<byte>
    decreases |events|
  {
    if events == [] then []
    else
      match events[0]
      case Fail => []
      case Data(b) => if b == [] then [] else b + Live(events[1..])
  }

  /** What a capture with cap `limit` keeps: the first `limit` live bytes. */
  function Captured(events: seq<Event>, limit: nat): seq<byte> {
    var live := Live(events);
    if |live| <= limit then live else live[..limit]
  }

  /** The reader handed to `read_with_limit`: a pipe end modelled by its pending events. */
  class Reader {
    var events: seq<Event>

    constructor (events: seq<Event>)
      ensures this.events == events
    {
      this.events := events;
    }

    /**
     * `Read::read` into `buf[..size]`: up to `size` bytes of the current run,
     * leaving the rest of the run for the next read.
     */
    method Read(buf: array<byte>, size: nat) returns (r: Result<nat, Fault>)
      requires size <= buf.Length
      modifies this, buf
      ensures r.Ok? ==> r.value <= size && buf[..r.value] + Live(events) == Live(old(events))
      ensures r.Ok? && r.value == 0 && size > 0 ==> Live(old(events)) == []
      ensures r.Err? ==> r.error == IoFailure && Live(old(events)) == []
    {
      if size == 0 || events == [] {
        return Ok(0);
      }
      match events[0]
      case Fail =>
        return Err(IoFailure);
      case Data(b) =>
        if b == [] {
          return Ok(0);
        }
        var n := if size < |b| then size else |b|;
        forall i | 0 <= i < n {
          buf[i] := b[i];
        }
        assert buf[..n] == b[..n];
        var rest := events[1..];
        if n == |b| {
          events := rest;
        } else {
          events := [Data(b[n..])] + rest;
          assert Live(events) == b[n..] + Live(rest);
        }
        assert b == b[..n] + b[n..];
        return Ok(n);
    }
  }

  /**
   * `read_with_limit`: read in chunks of at most `ChunkSize` bytes, never asking
   * for more than is left below `limit`, and stop at the first end of stream or
   * error; the result is exactly the first `limit` live bytes.
   */
  method ReadWithLimit(reader: Reader, limit: nat) returns (buf: seq<byte>)
    modifies reader
    ensures buf == Captured(old(reader.events), limit)
  {
    buf := [];
    var chunk := new byte[ChunkSize];
    while |buf| < limit
      invariant |buf| <= limit
      invariant buf + Live(reader.events) == Live(old(reader.events))
      decreases limit - |buf|
    {
      var remaining := limit - |buf|;
      var readSize := if chunk.Length < remaining then chunk.Length else remaining;
      var r := reader.Read(chunk, readSize);
      if r.Err? || r.value == 0 {
        assert buf == Live(old(reader.events));
        break;
      }
      buf := buf + chunk[..r.value];
    }
    ghost var live := Live(old(reader.events));
    if |buf| == limit {
      assert buf == live[..limit];
    }
  }

  /** The capture never holds more than the cap. */
  lemma CapturedBound(events: seq<Event>, limit: nat)
    ensures |Captured(events, limit)| <= limit
  {
  }

  /**
   * The capture is a prefix of what the stream delivered, and it is all of it
   * unless the stream had more than the cap, in which case it is exactly the cap.
   */
  lemma CapturedIsPrefix(events: seq<Event>, limit: nat)
    ensures var c := Captured(events, limit); var live := Live(events);
      c == live[..|c|] && (|c| == |live| || |c| == limit)
  {
  }

  /** Whatever follows the first end of stream or error is never read. */
  lemma {:induction false} CapturedStopsAtFirstEnd(events: seq<Event>, j: nat, limit: nat)
    requires j < |events| && (events[j] == Fail || events[j] == Data([]))
    ensures Live(events) == Live(events[..j])
    ensures Captured(events, limit) == Captured(events[..j + 1], limit)
    decreases j
  {
    if j == 0 {
      assert events[..j] == [];
      assert Live(events[..j + 1]) == [];
    } else {
      CapturedStopsAtFirstEnd(events[1..], j - 1, limit);
      assert events[1..][..j - 1] == events[..j][1..];
      assert events[1..][..j] == events[..j + 1][1..];
      CapturedStopsAtFirstEnd(events[..j + 1][1..], j - 1, limit);
      assert events[..j + 1][1..][..j - 1] == events[..j][1..];
    }
  }

  /** Under the program's 2 MiB cap, a stream of more than 2 MiB is captured as exactly its first 2 MiB. */
  lemma CaptureAtTwoMebibytes(events: seq<Event>)
    requires |Live(events)| >= CaptureLimit
    ensures |Captured(events, CaptureLimit)| == 2097152
    ensures Captured(events, CaptureLimit) == Live(events)[..2097152]
  {
  }
}
