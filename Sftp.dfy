/**
 * The transport helper shared by client and server (class SFTP): framing of
 * response lines, the fixed-count byte read, the multi-line message read and
 * the transmission-type reply.  The socket is replaced by an abstract channel:
 * the bytes written so far, and the input the peer has sent, each with a count
 * of how much of it the stream reports as ready.
 */
module Sftp {
  import opened Wrappers
  import opened Text

  type byte = b: int | 0 <= b < 256

  /** DataOutputStream.writeBytes keeps only the low eight bits of each character. */
  function LowByte(ch: char): byte
  {
    (ch as int) % 256
  }

  function LowBytes(s: string): (r: seq<byte>)
    ensures |r| == |s| && forall i :: 0 <= i < |s| ==> r[i] == LowByte(s[i])
  {
    seq(|s|, i requires 0 <= i < |s| => LowByte(s[i]))
  }

  /** The bytes one writeToOutputStream(String) call puts on the wire. */
  function LineBytes(s: string): seq<byte>
  {
    LowBytes(s + "\r\n")
  }

  /** Characters whose code fits in one byte (ISO-8859-1). */
  predicate IsLatin1(s: string)
  {
    forall i :: 0 <= i < |s| ==> s[i] as int < 256
  }

  /** Bytes read back as ISO-8859-1 characters. */
  function Latin1(b: seq<byte>): (r: string)
    ensures |r| == |b|
  {
    seq(|b|, i requires 0 <= i < |b| => (b[i] as int) as char)
  }

  /** A response line is its text followed by CR LF, and a one-byte text reads back unchanged. */
  lemma LineFraming(s: string)
    ensures |LineBytes(s)| == |s| + 2
    ensures LineBytes(s)[|s|..] == [13, 10]
    ensures IsLatin1(s) ==> Latin1(LineBytes(s)) == s + "\r\n"
  {
    var b := LineBytes(s);
    assert b[|s|] == 13 && b[|s| + 1] == 10;
    if IsLatin1(s) {
      forall i | 0 <= i < |s| + 2 ensures Latin1(b)[i] == (s + "\r\n")[i] {
        if i < |s| { assert (s + "\r\n")[i] == s[i]; }
      }
    }
  }

  /** How many bytes readInputStreamAsBytes(n) copies: n, or fewer when less input is ready. */
  function ReadCount(input: seq<byte>, ready: nat, n: nat): (k: nat)
    ensures k <= n && k <= |input|
  {
    var m := if ready < |input| then ready else |input|;
    if n < m then n else m
  }

  /** What readInputStreamAsBytes(n) returns: the copied prefix of the input, zero-padded to n. */
  function ReadPrefix(input: seq<byte>, ready: nat, n: nat): (r: seq<byte>)
    ensures |r| == n
  {
    var k := ReadCount(input, ready, n);
    input[..k] + seq(n - k, _ => 0)
  }

  /** The end of one SFTP connection as either side sees it. */
  class Channel {
    /** Only the client arms the 10-second read timeout; the model leaves timing out. */
    const isClient: bool
    /** Set to "B" at construction and never reassigned. */
    const transmissionType: string
    /** Every byte written to the output stream so far. */
    var sent: seq<byte>
    /** The lines the peer sends, in order; readLine returns them without terminator. */
    var lineInput: seq<string>
    /** How many of those lines ready() reports as already available. */
    var linesReady: nat
    /** The raw bytes the peer sends, in order. */
    var byteInput: seq<byte>
    /** How many of those bytes ready() reports as already available. */
    var bytesReady: nat
    var isOpen: bool

    ghost predicate Valid()
      reads this
    {
      && linesReady <= |lineInput|
      && bytesReady <= |byteInput|
      && forall i :: 0 <= i < |lineInput| ==> '\n' !in lineInput[i] && '\r' !in lineInput[i]
    }

    constructor (isClient: bool, lines: seq<string>, linesReady: nat, bytes: seq<byte>, bytesReady: nat)
      requires linesReady <= |lines| && bytesReady <= |bytes|
      requires forall i :: 0 <= i < |lines| ==> '\n' !in lines[i] && '\r' !in lines[i]
      ensures Valid() && this.isClient == isClient && transmissionType == "B"
      ensures sent == [] && isOpen
      ensures lineInput == lines && this.linesReady == linesReady
      ensures byteInput == bytes && this.bytesReady == bytesReady
    {
      this.isClient := isClient;
      transmissionType := "B";
      sent := [];
      lineInput := lines;
      this.linesReady := linesReady;
      byteInput := bytes;
      this.bytesReady := bytesReady;
      isOpen := true;
    }

    /** setTransmissionType: the reply to TYPE; no field is touched. */
    function SetTransmissionType(t: string): (r: string)
      ensures r == "+Using Ascii mode" <==> t == "A"
      ensures r == "+Using Binary mode" <==> t == "B"
      ensures r == "+Using Continuous mode" <==> t == "C"
      ensures r == "-Type not valid" <==> t != "A" && t != "B" && t != "C"
      ensures r[0] == '+' <==> t == "A" || t == "B" || t == "C"
    {
      if t == "A" then "+Using Ascii mode"
      else if t == "B" then "+Using Binary mode"
      else if t == "C" then "+Using Continuous mode"
      else "-Type not valid"
    }

    /** writeToOutputStream(String): the text and CR LF; nothing reaches a closed socket. */
    method WriteLine(response: string)
      modifies this`sent
      ensures sent == old(sent) + (if isOpen then LineBytes(response) else [])
    {
      if isOpen {
        sent := sent + LineBytes(response);
      }
    }

    /** writeToOutputStream(File): the file's bytes with no framing at all. */
    method WriteBytes(data: seq<byte>)
      modifies this`sent
      ensures sent == old(sent) + (if isOpen then data else [])
    {
      if isOpen {
        sent := sent + data;
      }
    }

    /** terminateSession. */
    method Terminate()
      modifies this`isOpen
      ensures !isOpen
    {
      isOpen := false;
    }

    /**
     * readInputStreamAsBytes(n): a fresh zero-filled array of length n, into which
     * consecutive ready input bytes are copied from position 0 until n are copied
     * or the input stops being ready.
     */
    method ReadBytes(n: nat) returns (buf: array<byte>)
      requires Valid()
      modifies this`byteInput, this`bytesReady
      ensures Valid() && fresh(buf) && buf.Length == n
      ensures var k := ReadCount(old(byteInput), old(bytesReady), n);
        && buf[..] == ReadPrefix(old(byteInput), old(bytesReady), n)
        && byteInput == old(byteInput)[k..]
        && bytesReady == old(bytesReady) - k
    {
      buf := new byte[n](_ => 0);
      var i := 0;
      while i < n
        invariant 0 <= i <= n && i <= old(bytesReady)
        invariant byteInput == old(byteInput)[i..] && bytesReady == old(bytesReady) - i
        invariant buf[..i] == old(byteInput)[..i]
        invariant forall j :: i <= j < n ==> buf[j] == 0
        invariant i < n ==> bytesReady > 0 || i == old(bytesReady)
      {
        if bytesReady == 0 {
          break;
        }
        buf[i] := byteInput[0];
        byteInput := byteInput[1..];
        bytesReady := bytesReady - 1;
        i := i + 1;
      }
      var k := ReadCount(old(byteInput), old(bytesReady), n);
      assert i == k;
      assert buf[..] == buf[..i] + buf[i..];
      assert buf[i..] == seq(n - k, _ => 0);
    }

    /**
     * readInputStreamAsString: one line (waiting for it if none is ready), then
     * every further line that is ready, joined with '\n'; None at end of stream.
     */
    method ReadMessage() returns (m: Option<string>)
      requires Valid()
      modifies this`lineInput, this`linesReady
      ensures Valid()
      ensures old(lineInput) == [] ==> m == None && lineInput == [] && linesReady == old(linesReady)
      ensures old(lineInput) != [] ==>
        var k := if old(linesReady) == 0 then 1 else old(linesReady);
        && m == Some(Join(old(lineInput)[..k], '\n'))
        && SplitAll(m.value, '\n') == old(lineInput)[..k]
        && lineInput == old(lineInput)[k..]
        && linesReady == 0
    {
      if |lineInput| == 0 {
        return None;
      }
      ghost var k := if linesReady == 0 then 1 else linesReady;
      var message := lineInput[0];
      lineInput := lineInput[1..];
      linesReady := if linesReady > 0 then linesReady - 1 else 0;
      ghost var j := 1;
      while linesReady > 0
        invariant 1 <= j <= k <= |old(lineInput)|
        invariant lineInput == old(lineInput)[j..] && linesReady == k - j
        invariant message == Join(old(lineInput)[..j], '\n')
      {
        JoinSnoc(old(lineInput)[..j], lineInput[0], '\n');
        assert old(lineInput)[..j] + [lineInput[0]] == old(lineInput)[..j + 1];
        message := message + "\n" + lineInput[0];
        lineInput := lineInput[1..];
        linesReady := linesReady - 1;
        j := j + 1;
      }
      m := Some(message);
      forall i | 0 <= i < k ensures '\n' !in old(lineInput)[..k][i] {
        assert old(lineInput)[..k][i] == old(lineInput)[i];
      }
      SplitAllJoin(old(lineInput)[..k], '\n');
    }
  }
}
