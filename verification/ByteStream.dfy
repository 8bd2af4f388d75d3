// The body reader's input (app/ota/app_ota_http.c, bs_read_*): bytes left over in
// the header buffer, then the socket, as one stream.
module ByteStream {
  import opened Bits
  import opened CText

  // The socket and the run flag, as the download task sees them. `unread` is what
  // the peer will still deliver before it closes; recv hands it out in pieces of
  // its own choosing. On a reliable link recv fails only when nothing is left; kept
  // says that nobody stops the download while the link is in use.
  class Link {
    var running: bool
    var unread: seq<byte>
    const reliable: bool
    const kept: bool

    constructor (bytes: seq<byte>, running: bool, reliable: bool, kept: bool)
      ensures this.running == running && unread == bytes && this.reliable == reliable && this.kept == kept
    {
      this.running, unread, this.reliable, this.kept := running, bytes, reliable, kept;
    }

    // What has become of the flag, which was `was`: it only falls, and not on a kept
    // link.
    ghost predicate Flag(was: bool)
      reads this
    {
      (running ==> was) && (kept && was ==> running)
    }

    // Nothing will get in the way of the download.
    ghost predicate Calm()
      reads this
    {
      running && reliable && kept
    }

    // Reads the volatile flag, which another thread may clear at any time.
    method Running() returns (r: bool)
      modifies `running
      ensures r == running && Flag(old(running))
    {
      if * { running := running && kept; }
      return running;
    }

    method Recv(want: nat) returns (n: int, data: seq<byte>)
      requires want > 0
      modifies `unread
      ensures n > 0 ==> n == |data| <= want && old(unread) == data + unread
      ensures n <= 0 ==> unread == old(unread) && (reliable ==> unread == [])
    {
      if unread == [] { return 0, []; }
      if * {
        if !reliable { return -1, []; }
      }
      var k: nat :| 1 <= k <= want && k <= |unread|;
      data := unread[..k];
      unread := unread[k..];
      return k, data;
    }
  }

  class Stream {
    const link: Link
    const prebuf: seq<byte>
    var preOff: nat

    ghost predicate Valid()
      reads this
    {
      preOff <= |prebuf|
    }

    // Everything the reader can still get.
    ghost function Pending(): seq<byte>
      requires Valid()
      reads this, link
    {
      prebuf[preOff..] + link.unread
    }

    constructor (link: Link, prebuf: seq<byte>)
      ensures Valid() && this.link == link && Pending() == prebuf + link.unread
    {
      this.link, this.prebuf, preOff := link, prebuf, 0;
    }

    method ReadSome(want: nat) returns (rc: int, data: seq<byte>)
      requires Valid() && want > 0
      modifies this, link`unread
      ensures Valid()
      ensures rc == 0 ==> 0 < |data| <= want && old(Pending()) == data + Pending()
      ensures rc != 0 ==> rc == -1 && Pending() == old(Pending()) && (link.reliable ==> Pending() == [])
    {
      if preOff < |prebuf| {
        var avail := |prebuf| - preOff;
        var take := if avail < want then avail else want;
        data := prebuf[preOff..preOff + take];
        assert prebuf[preOff..] == data + prebuf[preOff + take..];
        preOff := preOff + take;
        return 0, data;
      }
      var n;
      n, data := link.Recv(want);
      if n <= 0 { return -1, []; }
      return 0, data;
    }

    method ReadExact(want: nat) returns (rc: int, out: seq<byte>)
      requires Valid()
      modifies this, link
      ensures Valid() && link.Flag(old(link.running))
      ensures rc == 0 ==> |out| == want && old(Pending()) == out + Pending()
      ensures rc != 0 ==> !link.running || !link.reliable || |old(Pending())| < want
      ensures want > 0 && !old(link.running) ==> rc == -1 && Pending() == old(Pending())
    {
      hide Stream.Valid, Stream.Pending;
      out := [];
      while |out| < want
        invariant Valid() && |out| <= want && old(Pending()) == out + Pending()
        invariant !old(link.running) ==> out == []
        invariant link.Flag(old(link.running))
      {
        var running := link.Running();
        if !running { return -1, out; }
        var got;
        rc, got := ReadSome(want - |out|);
        if rc != 0 { return -2, out; }
        out := out + got;
      }
      return 0, out;
    }

    // One turn of the line reader's loops: look at the run flag, read one byte.
    method NextByte() returns (rc: int, c: byte)
      requires Valid()
      modifies this, link
      ensures Valid() && link.Flag(old(link.running))
      ensures rc == 0 ==> old(Pending()) == [c] + Pending()
      ensures rc == 0 || (rc == -1 && !link.running) || (rc == -3 && (link.reliable ==> old(Pending()) == []))
      ensures !old(link.running) ==> rc == -1 && Pending() == old(Pending())
    {
      var running := link.Running();
      if !running { return -1, 0; }
      var data;
      rc, data := ReadSome(1);
      if rc != 0 { return -3, 0; }
      c := data[0];
    }

    // Reads one line into a buffer as a C string. Success and overflow both consume
    // exactly through the first CRLF of the stream, wherever recv cut it.
    method ReadLine(line: array<byte>) returns (rc: int)
      requires Valid() && line.Length > 0
      modifies this, link, line
      ensures Valid() && link.Flag(old(link.running))
      ensures rc == 0 || rc == -2 ==>
                var c := Crlf(old(Pending()));
                && c.Some? && Pending() == old(Pending())[c.value + 2..]
                && (rc == 0 <==> c.value + 2 <= line.Length)
                && (rc == 0 ==> line[..c.value] == old(Pending())[..c.value] && line[c.value] == 0)
      ensures rc == -1 ==> !link.running
      ensures !old(link.running) ==> rc == -1 && Pending() == old(Pending())
      ensures rc != 0 && rc != -1 && rc != -2 ==> link.reliable ==> Crlf(old(Pending())).None?
    {
      hide Crlf, Stream.Pending, Stream.Valid;
      EmptyIsOneLine();
      var n, prevCr := 0, false;
      ghost var whole, seen := Pending(), [];
      while true
        invariant Valid() && n < line.Length && link.Flag(old(link.running))
        invariant !old(link.running) ==> seen == []
        invariant whole == seen + Pending() && OneLine(seen)
        invariant n == |seen| && line[..n] == seen
        invariant prevCr <==> seen != [] && seen[|seen| - 1] == CR
        decreases |Pending()|
      {
        var r, c := NextByte();
        if r != 0 {
          assert link.reliable && r == -3 ==> whole == seen;
          return r;
        }
        if c == LF && prevCr {
          LineFound(whole, seen, Pending());
          if n > 0 && line[n - 1] == CR { n := n - 1; }
          if n >= line.Length { return -2; }
          Put(line, n, 0);
          return 0;
        }
        ExtendsLine(seen, c);
        n := Append(line, n, c);
        seen := seen + [c];
        prevCr := c == CR;
        if n == line.Length {
          rc := Drain(line, prevCr, whole, seen);
          return;
        }
      }
    }

    // The inner loop: the line did not fit, throw it away up to its end.
    method Drain(line: array<byte>, cr: bool, ghost whole: seq<byte>, ghost had: seq<byte>) returns (rc: int)
      requires Valid() && line.Length > 0 && |had| == line.Length && OneLine(had)
      requires whole == had + Pending() && (cr <==> had[|had| - 1] == CR)
      modifies this, link, line
      ensures Valid() && link.Flag(old(link.running))
      ensures rc == -1 || rc == -2 || rc == -3
      ensures rc == -1 ==> !link.running
      ensures rc == -2 ==> Crlf(whole).Some? && Crlf(whole).value + 2 > line.Length && Pending() == whole[Crlf(whole).value + 2..]
      ensures rc == -3 ==> link.reliable ==> Crlf(whole).None?
    {
      hide Crlf, Stream.Pending, Stream.Valid;
      var prevCr := cr;
      ghost var seen := had;
      while true
        invariant Valid() && link.Flag(old(link.running))
        invariant whole == seen + Pending() && OneLine(seen) && |had| <= |seen|
        invariant prevCr <==> seen[|seen| - 1] == CR
        decreases |Pending()|
      {
        var r, d := NextByte();
        if r != 0 {
          assert link.reliable && r == -3 ==> whole == seen;
          return r;
        }
        if d == LF && prevCr {
          LineFound(whole, seen, Pending());
          line[line.Length - 1] := 0;
          return -2;
        }
        ExtendsLine(seen, d);
        seen := seen + [d];
        prevCr := d == CR;
      }
    }
  }

  method Put(line: array<byte>, n: nat, c: byte)
    requires n < line.Length
    modifies line
    ensures line[..n + 1] == old(line[..n]) + [c]
    ensures line[..n] == old(line[..n]) && line[n] == c
  {
    line[n] := c;
  }

  // The next place to write, or the buffer's length when the line does not fit.
  method Append(line: array<byte>, n: nat, c: byte) returns (m: nat)
    requires n < line.Length
    modifies line
    ensures m == n + 1 <= line.Length
    ensures m < line.Length ==> line[..m] == old(line[..n]) + [c]
  {
    if n < line.Length - 1 {
      Put(line, n, c);
      m := n + 1;
    } else {
      m := line.Length;
    }
  }

  lemma LineFound(whole: seq<byte>, seen: seq<byte>, rest: seq<byte>)
    requires seen != [] && seen[|seen| - 1] == CR && OneLine(seen) && whole == seen + ([LF] + rest)
    ensures Crlf(whole) == Some(|seen| - 1) && whole[|seen| + 1..] == rest
    ensures whole[..|seen| - 1] == seen[..|seen| - 1]
  {
    hide Crlf;
    FoundAt(seen, rest);
    assert whole == seen + [LF] + rest;
  }

  // A line feed behind a text that ends in CR and holds no CRLF yet.
  lemma FoundAt(seen: seq<byte>, rest: seq<byte>)
    requires seen != [] && seen[|seen| - 1] == CR && OneLine(seen)
    ensures Crlf(seen + [LF] + rest) == Some(|seen| - 1)
    ensures (seen + [LF] + rest)[|seen| + 1..] == rest
  {
    var text := seen[..|seen| - 1];
    assert OneLine(text) by {
      CrlfMeans(seen);
      CrlfMeans(text);
    }
    CrlfOfLine(text, rest);
    assert Line(text) + rest == seen + [LF] + rest;
  }

  lemma EmptyIsOneLine()
    ensures OneLine([])
  {
  }

  lemma ExtendsLine(seen: seq<byte>, c: byte)
    requires OneLine(seen) && !(c == LF && seen != [] && seen[|seen| - 1] == CR)
    ensures OneLine(seen + [c])
  {
    CrlfMeans(seen);
    CrlfMeans(seen + [c]);
    assert forall i :: 0 <= i < |seen| ==> (seen + [c])[i] == seen[i];
  }
}
