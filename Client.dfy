/**
 * The client's response anticipation (class sftp.client.Client): a handful of
 * flags, set while a user command is turned into a request, that predict what the
 * server sends next: a decimal file size after RETR, raw file bytes after SEND,
 * and a go-ahead after which the staged STOR file is uploaded.
 *
 * The pure functions UserCommand, StringResponse, Receive and Request state the
 * behaviour on a snapshot (View); the class Client carries the source's fields and
 * its methods are proved to follow those functions. An exception that reaches the
 * client's main loop closes the socket and marks the client disconnected; the model
 * applies that inside the operation that throws.
 */
module SftpClient {
  import opened Wrappers
  import opened Text
  import opened Sftp
  import SFS = ServerFileSystem
  import Srv = SftpServer

  /** The client's resources directory: file name to contents. */
  type Files = map<string, seq<byte>>

  /** The replies the client looks for by substring. */
  const LUNCH := "Lunch"
  const GOODBYE := "Goodbye"
  const GO_AHEAD := "+ok, waiting for file"
  const ABORTED := "+ok, RETR aborted"

  /** The anticipation state: the source's static fields, in one value. */
  datatype Flags = Flags(
    isResponseFileSize: bool,
    isResponseBytes: bool,
    isRequestSendingFile: bool,
    isExit: bool,
    fileReceiveName: Option<string>,
    fileToSend: Option<string>,
    fileReceiveSize: int)

  /** A byte expectation always knows the name to save under. */
  predicate Coherent(f: Flags)
  {
    f.isResponseBytes ==> f.fileReceiveName.Some?
  }

  /** File.length(): 0 for a file that is not there. */
  function FileLength(files: Files, name: string): nat
  {
    if name in files then |files[name]| else 0
  }

  // ---- processUserCommand ----

  datatype Command = Command(request: string, next: Flags)

  /** A STOR command of three tokens naming a file the client does not have. */
  predicate StorMissing(message: string, files: Files)
  {
    var args := JavaSplit(message, ' ');
    Contains(message, "STOR") && |args| == 3 && args[2] !in files
  }

  /** A bare SIZE while a file is staged: the client appends the file's length. */
  predicate SizeRewrite(message: string, f: Flags)
  {
    && !Contains(message, "STOR") && !Contains(message, "RETR") && !Contains(message, "SEND")
    && Contains(message, "SIZE") && |JavaSplit(message, ' ')| == 1 && f.fileToSend.Some?
  }

  /** processUserCommand: the request to send ("-" for none) and the flags after it. */
  function UserCommand(message: string, f: Flags, files: Files): Command
  {
    var args := JavaSplit(message, ' ');
    var stripped := Strip(message);
    if Contains(message, "STOR") then
      if |args| == 3 then
        if args[2] in files then Command(stripped, f.(fileToSend := Some(args[2])))
        else Command("-", f.(fileToSend := None))
      else Command(stripped, f)
    else if Contains(message, "RETR") then
      if |args| == 2 then Command(stripped, f.(isResponseFileSize := true, fileReceiveName := Some(args[1])))
      else Command(stripped, f)
    else if Contains(message, "SEND") then
      if |args| == 1 && f.fileReceiveName.Some? then Command(stripped, f.(isResponseBytes := true))
      else Command(stripped, f)
    else if Contains(message, "SIZE") && |args| == 1 && f.fileToSend.Some? then
      Command(message + " " + NatToDecimal(FileLength(files, f.fileToSend.value)), f)
    else Command(stripped, f)
  }

  /** A non-white-space character of the message survives strip(). */
  lemma StripKeeps(m: string, i: nat)
    requires i < |m| && !IsWhitespace(m[i])
    ensures m[i] in Strip(m)
  {
    var lead := StripLeading(m);
    var k := |m| - |lead|;
    assert k <= i;
    assert lead[i - k] == m[i];
    var t := StripTrailing(lead);
    assert i - k < |t|;
    assert t[i - k] == m[i];
  }

  /** A message naming a verb is never withheld by strip() alone. */
  lemma VerbNotDash(message: string, verb: string)
    requires Contains(message, verb) && |verb| > 0 && !IsWhitespace(verb[0]) && verb[0] != '-'
    ensures Strip(message) != "-"
  {
    ContainsChar(message, verb, 0);
    var i :| 0 <= i < |message| && message[i] == verb[0];
    StripKeeps(message, i);
  }

  /**
   * The request is withheld ("-") exactly for a STOR of a file the client does not
   * have, or a message that is "-" once stripped; a missing STOR file unstages
   * whatever was staged, a present one is staged under its name.
   */
  lemma UserCommandWithheld(message: string, f: Flags, files: Files)
    ensures var c := UserCommand(message, f, files);
      && (c.request == "-" <==> StorMissing(message, files) || (Strip(message) == "-" && !SizeRewrite(message, f)))
      && (StorMissing(message, files) ==> c.next.fileToSend == None)
      && (Contains(message, "STOR") && !StorMissing(message, files) && |JavaSplit(message, ' ')| == 3 ==>
            c.next.fileToSend == Some(JavaSplit(message, ' ')[2]))
  {
    var c := UserCommand(message, f, files);
    if SizeRewrite(message, f) {
      assert |c.request| > 1;
    }
  }

  /**
   * Only one verb is acted on, in the order STOR, RETR, SEND, SIZE; a user command
   * never arms the upload, never exits and never records a size; a byte
   * expectation is armed only by a lone SEND when a RETR name is known.
   */
  lemma UserCommandFlags(message: string, f: Flags, files: Files)
    ensures var n := UserCommand(message, f, files).next;
      && n.isRequestSendingFile == f.isRequestSendingFile && n.isExit == f.isExit
      && n.fileReceiveSize == f.fileReceiveSize
      && (n.fileToSend != f.fileToSend ==> Contains(message, "STOR"))
      && (n.isResponseFileSize != f.isResponseFileSize || n.fileReceiveName != f.fileReceiveName ==>
            !Contains(message, "STOR") && Contains(message, "RETR") && |JavaSplit(message, ' ')| == 2)
      && (n.isResponseBytes != f.isResponseBytes ==>
            && !Contains(message, "STOR") && !Contains(message, "RETR") && Contains(message, "SEND")
            && |JavaSplit(message, ' ')| == 1 && f.fileReceiveName.Some?)
      && (Coherent(f) ==> Coherent(n))
  {
    var args := JavaSplit(message, ' ');
    var n := UserCommand(message, f, files).next;
    if Contains(message, "STOR") {
      assert n == f || n == f.(fileToSend := None) || (|args| == 3 && n == f.(fileToSend := Some(args[2])));
    } else if Contains(message, "RETR") {
      assert n == f || (|args| == 2 && n == f.(isResponseFileSize := true, fileReceiveName := Some(args[1])));
    } else if Contains(message, "SEND") {
      assert n == f || (|args| == 1 && f.fileReceiveName.Some? && n == f.(isResponseBytes := true));
    } else {
      assert n == f;
    }
  }

  /**
   * A bare SIZE without spaces becomes "SIZE <length>", which splits into the verb
   * and a numeral that the server's parser reads back as the staged file's length.
   */
  lemma SizeAnnouncesLength(message: string, f: Flags, files: Files)
    requires SizeRewrite(message, f) && ' ' !in message
    requires FileLength(files, f.fileToSend.value) < 0x1_0000_0000
    ensures var r := UserCommand(message, f, files).request;
      var len := FileLength(files, f.fileToSend.value);
      && JavaSplit(r, ' ') == [message, NatToDecimal(len)]
      && Srv.ParseUnsignedInt(JavaSplit(r, ' ')[1]) == Some(len)
  {
    var len := FileLength(files, f.fileToSend.value);
    var d := NatToDecimal(len);
    var parts := [message, d];
    NumeralHasNoSpace(len);
    assert Join(parts, ' ') == message + " " + d;
    SplitAllJoin(parts, ' ');
    var r := message + " " + d;
    assert r[|message|] == ' ';
    assert DropTrailingEmpty(parts) == parts;
    Srv.SizeRoundTrip(len);
  }

  /** A numeral holds no space. */
  lemma NumeralHasNoSpace(n: nat)
    ensures ' ' !in NatToDecimal(n)
  {
    var d := NatToDecimal(n);
    forall i | 0 <= i < |d| ensures d[i] != ' ' { assert IsDigit(d[i]); }
  }

  /** Two spaces in a row leave an empty piece between the words. */
  lemma SplitDoubleSpace(v: string, d: string)
    requires ' ' !in v && ' ' !in d && d != ""
    ensures JavaSplit(v + "  " + d, ' ') == [v, "", d]
  {
    var parts := [v, "", d];
    var r := v + "  " + d;
    assert Join(parts[1..], ' ') == [' '] + d;
    assert Join(parts, ' ') == v + [' '] + ([' '] + d);
    assert v + [' '] + ([' '] + d) == r;
    SplitAllJoin(parts, ' ');
    assert r[|v|] == ' ';
    assert DropTrailingEmpty(parts) == parts;
  }

  lemma NotStor(message: string)
    requires !Contains(message, "STOR")
    ensures message != "STOR"
  {
    assert OccursAt("STOR", "STOR", 0);
  }

  /** A request with an empty middle piece fits no verb's format but STOR's. */
  lemma DoubleSpaceRejected(v: string, d: string)
    requires ' ' !in v && ' ' !in d && d != "" && v != "STOR"
    ensures JavaSplit(v + "  " + d, ' ') == [v, "", d]
    ensures !Srv.IsValidRequestFormat(JavaSplit(v + "  " + d, ' '))
  {
    SplitDoubleSpace(v, d);
  }

  /**
   * A bare SIZE typed with a trailing space still splits into the verb alone, so
   * the client appends " <length>" to the message as typed.
   */
  lemma SizeTrailingSpaceRewritten(message: string, f: Flags, files: Files)
    requires SizeRewrite(message, f) && ' ' !in message
    ensures UserCommand(message + " ", f, files).request
      == message + "  " + NatToDecimal(FileLength(files, f.fileToSend.value))
  {
    var m := message + " ";
    ContainsChar(message, "SIZE", 0);
    assert JavaSplit(m, ' ') == [message] by {
      assert Join([message, ""], ' ') == m;
      SplitAllJoin([message, ""], ' ');
      assert DropTrailingEmpty([message, ""]) == [message];
    }
    ContainsAppend(message, ' ', "STOR");
    ContainsAppend(message, ' ', "RETR");
    ContainsAppend(message, ' ', "SEND");
    ContainsAppend(message, ' ', "SIZE");
  }

  /**
   * The server splits that request into three pieces, the middle one empty, and
   * rejects it as an invalid command.
   */
  lemma SizeTrailingSpaceRejected(message: string, f: Flags, files: Files)
    requires SizeRewrite(message, f) && ' ' !in message
    ensures var r := UserCommand(message + " ", f, files).request;
      && JavaSplit(r, ' ') == [message, "", NatToDecimal(FileLength(files, f.fileToSend.value))]
      && !Srv.IsValidRequestFormat(JavaSplit(r, ' '))
  {
    var d := NatToDecimal(FileLength(files, f.fileToSend.value));
    SizeTrailingSpaceRewritten(message, f, files);
    ContainsChar(message, "SIZE", 0);
    NumeralHasNoSpace(FileLength(files, f.fileToSend.value));
    NotStor(message);
    DoubleSpaceRejected(message, d);
  }

  // ---- processStringResponse ----

  /** Integer.parseInt: an optional sign, then ASCII digits, within the int range. */
  function ParseJavaInt(s: string): (r: Option<int>)
    ensures r.Some? ==> -0x8000_0000 <= r.value < 0x8000_0000
  {
    if |s| > 0 && (s[0] == '-' || s[0] == '+') then
      match ParseDecimal(s[1..])
      case None => None
      case Some(n) =>
        var v: int := if s[0] == '-' then -(n as int) else n;
        if -0x8000_0000 <= v < 0x8000_0000 then Some(v) else None
    else
      match ParseDecimal(s)
      case None => None
      case Some(n) => if n < 0x8000_0000 then Some(n) else None
  }

  lemma ParseJavaIntRoundTrip(n: nat)
    requires n < 0x8000_0000
    ensures ParseJavaInt(NatToDecimal(n)) == Some(n)
  {
    DecimalRoundTrip(n);
    assert IsDigit(NatToDecimal(n)[0]);
  }

  /**
   * processStringResponse: the flags after the server's reply, or None where an
   * exception escapes (an empty reply has no first character, and a pending size
   * that is not a numeral fails to parse). A null reply changes nothing.
   */
  function StringResponse(response: Option<string>, f: Flags): Option<Flags>
  {
    match response
    case None => Some(f)
    case Some(r) =>
      if |r| == 0 then None
      else if r[0] == '-' then
        if Contains(r, LUNCH) then Some(f.(isExit := true))
        else if f.isResponseFileSize then Some(f.(isResponseFileSize := false, fileReceiveName := None))
        else Some(f)
      else if Contains(r, GOODBYE) then Some(f.(isExit := true))
      else if f.isResponseFileSize then
        match ParseJavaInt(r)
        case None => None
        case Some(n) => Some(f.(fileReceiveSize := n, isResponseFileSize := false))
      else if Contains(r, GO_AHEAD) then Some(f.(isRequestSendingFile := true))
      else if Contains(r, ABORTED) && f.fileReceiveName.Some? then
        Some(f.(isResponseBytes := false, fileReceiveName := None))
      else Some(f)
  }

  /** The client exits on a refusal mentioning Lunch or an acceptance mentioning Goodbye, and on nothing else. */
  lemma ResponseExit(r: string, f: Flags)
    requires StringResponse(Some(r), f).Some?
    ensures StringResponse(Some(r), f).value.isExit <==>
      f.isExit || (r[0] == '-' && Contains(r, LUNCH)) || (r[0] != '-' && Contains(r, GOODBYE))
  {
  }

  /** Only an acceptance carrying the go-ahead, with no size pending, arms the upload; a refusal never does. */
  lemma ResponseArms(r: string, f: Flags)
    requires StringResponse(Some(r), f).Some?
    ensures StringResponse(Some(r), f).value.isRequestSendingFile <==>
      f.isRequestSendingFile
      || (r[0] != '-' && !Contains(r, GOODBYE) && !f.isResponseFileSize && Contains(r, GO_AHEAD))
  {
  }

  /**
   * A reply never creates a byte expectation and never touches the staged upload;
   * a reply that does not end the session settles a pending size; coherence is
   * kept whenever no byte expectation was pending.
   */
  lemma ResponseSettles(r: string, f: Flags)
    requires StringResponse(Some(r), f).Some?
    ensures var n := StringResponse(Some(r), f).value;
      && (n.isResponseBytes ==> f.isResponseBytes)
      && n.fileToSend == f.fileToSend
      && (!(r[0] == '-' && Contains(r, LUNCH)) && !(r[0] != '-' && Contains(r, GOODBYE)) ==> !n.isResponseFileSize)
      && (Coherent(f) && !f.isResponseBytes ==> Coherent(n))
  {
  }

  /**
   * The server's RETR reply, read while a size is pending: the length of an existing
   * file (below 2^31) is recorded, and a refusal cancels the receive.
   */
  lemma RetrReplyRecorded(tree: SFS.Tree, current: SFS.Path, name: string, f: Flags)
    requires f.isResponseFileSize
    requires SFS.Exists(tree, SFS.Resolve(current, name)) ==>
      SFS.Size(tree[SFS.Normalize(SFS.Resolve(current, name))]) < 0x8000_0000
    ensures var p := SFS.Resolve(current, name);
      var n := StringResponse(Some(SFS.Retr(tree, current, name).reply), f);
      && (SFS.Exists(tree, p) ==>
            n == Some(f.(fileReceiveSize := SFS.Size(tree[SFS.Normalize(p)]), isResponseFileSize := false)))
      && (!SFS.Exists(tree, p) ==> n == Some(f.(isResponseFileSize := false, fileReceiveName := None)))
  {
    var p := SFS.Resolve(current, name);
    var r := SFS.Retr(tree, current, name).reply;
    if SFS.Exists(tree, p) {
      var len := SFS.Size(tree[SFS.Normalize(p)]);
      assert r == NatToDecimal(len);
      assert IsDigit(r[0]);
      assert 'G' !in r by {
        forall i | 0 <= i < |r| ensures r[i] != 'G' { assert IsDigit(r[i]); }
      }
      NotContainsChar(r, GOODBYE, 0);
      ParseJavaIntRoundTrip(len);
    } else {
      assert r == "-File doesn't exist";
      assert 'L' !in r;
      NotContainsChar(r, LUNCH, 0);
    }
  }

  /** DONE's farewell makes the client exit, whatever the server's host name. */
  lemma GoodbyeExits(localHost: string, f: Flags)
    ensures StringResponse(Some(Srv.Goodbye(localHost)), f) == Some(f.(isExit := true))
  {
    var r := Srv.Goodbye(localHost);
    var tail := " SFTP Service. Goodbye!";
    assert tail[15..22] == GOODBYE;
    assert OccursAt(tail, GOODBYE, 15);
    ContainsIff(tail, GOODBYE);
    SFS.ContainsExtend(tail, "", GOODBYE);
    assert r == ("+ Thanks for using " + localHost) + tail;
    SFS.ContainsExtend(tail, "+ Thanks for using " + localHost, GOODBYE);
  }

  lemma WaitingArms(f: Flags)
    requires !f.isResponseFileSize
    ensures StringResponse(Some(SFS.WAITING), f) == Some(f.(isRequestSendingFile := true))
  {
    var r := SFS.WAITING;
    assert r == GO_AHEAD;
    assert r[0] == '+';
    assert 'G' !in r;
    NotContainsChar(r, GOODBYE, 0);
    SFS.ContainsSelf(GO_AHEAD);
  }

  /** Of the replies to SIZE, exactly the admission arms the upload (no size being pending). */
  lemma AdmissionArms(mode: Option<string>, size: int, f: Flags)
    requires SFS.Admit(mode, size).Some? && !f.isResponseFileSize && !f.isRequestSendingFile
    ensures var r := SFS.Admit(mode, size).value.reply;
      StringResponse(Some(r), f).Some? &&
      (StringResponse(Some(r), f).value.isRequestSendingFile <==> r == SFS.WAITING)
  {
    var r := SFS.Admit(mode, size).value.reply;
    if r == SFS.WAITING {
      WaitingArms(f);
    } else {
      assert r == SFS.NO_ROOM || r == SFS.NOT_SPECIFIED;
      assert r[0] == '-';
    }
  }

  // ---- getServerResponse and requestServer on a snapshot ----

  /** What the socket holds for the client: raw bytes and lines, each with a ready prefix. */
  datatype Inbox = Inbox(bytes: seq<byte>, bytesReady: nat, lines: seq<string>, linesReady: nat)

  /** The client as a value: its flags, its directory, its input, and whether it is connected. */
  datatype View = View(flags: Flags, files: Files, inbox: Inbox, connected: bool)

  /** readInputStreamAsBytes(n): the ready prefix up to n bytes, zero-padded to n. */
  function Payload(inbox: Inbox, n: nat): seq<byte>
    requires inbox.bytesReady <= |inbox.bytes|
  {
    ReadPrefix(inbox.bytes, inbox.bytesReady, n)
  }

  function AfterPayload(inbox: Inbox, n: nat): Inbox
    requires inbox.bytesReady <= |inbox.bytes|
  {
    var k := ReadCount(inbox.bytes, inbox.bytesReady, n);
    inbox.(bytes := inbox.bytes[k..], bytesReady := inbox.bytesReady - k)
  }

  /** readInputStreamAsString: None at end of stream, else the first line and every further ready one. */
  function Message(inbox: Inbox): Option<string>
    requires inbox.linesReady <= |inbox.lines|
  {
    if inbox.lines == [] then None
    else Some(Join(inbox.lines[..if inbox.linesReady == 0 then 1 else inbox.linesReady], '\n'))
  }

  function AfterMessage(inbox: Inbox): Inbox
    requires inbox.linesReady <= |inbox.lines|
  {
    if inbox.lines == [] then inbox
    else inbox.(lines := inbox.lines[if inbox.linesReady == 0 then 1 else inbox.linesReady..], linesReady := 0)
  }

  predicate InboxValid(inbox: Inbox)
  {
    inbox.bytesReady <= |inbox.bytes| && inbox.linesReady <= |inbox.lines|
  }

  /** The name the received file is written under: Java's concatenation prints a null name as "null". */
  function ReceiveName(f: Flags): string
  {
    if f.fileReceiveName.Some? then f.fileReceiveName.value else "null"
  }

  /**
   * getServerResponse: a pending byte expectation is met first (a negative size
   * throws before anything is read), then one reply is read and processed.
   */
  function Receive(v: View): (w: View)
    requires InboxValid(v.inbox)
    ensures InboxValid(w.inbox)
  {
    if v.flags.isResponseBytes && v.flags.fileReceiveSize < 0 then v.(connected := false)
    else Answer(FileReceived(v))
  }

  /** The expected file, when one is expected, saved and the expectation cleared. */
  function FileReceived(v: View): (w: View)
    requires InboxValid(v.inbox) && (v.flags.isResponseBytes ==> v.flags.fileReceiveSize >= 0)
    ensures InboxValid(w.inbox)
  {
    var f := v.flags;
    if f.isResponseBytes then
      View(f.(isResponseBytes := false, fileReceiveName := None),
           v.files[ReceiveName(f) := Payload(v.inbox, f.fileReceiveSize)],
           AfterPayload(v.inbox, f.fileReceiveSize), v.connected)
    else v
  }

  /** One reply read and processed. */
  function Answer(v: View): (w: View)
    requires InboxValid(v.inbox)
    ensures InboxValid(w.inbox)
  {
    match StringResponse(Message(v.inbox), v.flags)
    case None => v.(inbox := AfterMessage(v.inbox), connected := false)
    case Some(n) => v.(flags := n, inbox := AfterMessage(v.inbox))
  }

  /** The flags requestServer applies before the exchange, when it goes ahead. */
  function Prepared(v: View, input: Option<string>): Flags
  {
    if v.flags.isRequestSendingFile then v.flags.(fileToSend := None, isRequestSendingFile := false)
    else if input.Some? then UserCommand(input.value, v.flags, v.files).next
    else v.flags
  }

  /**
   * requestServer: with the upload armed, the staged file is sent and the reply
   * awaited (no staged file throws); otherwise the user's line (None at the end of
   * standard input throws) becomes a request, sent and answered unless it is "-".
   */
  function Request(v: View, input: Option<string>): (w: View)
    requires InboxValid(v.inbox)
    ensures InboxValid(w.inbox)
  {
    if v.flags.isRequestSendingFile then
      if v.flags.fileToSend.None? then v.(connected := false)
      else Receive(v.(flags := Prepared(v, input)))
    else if input.None? then v.(connected := false)
    else
      var c := UserCommand(input.value, v.flags, v.files);
      if c.request == "-" then v.(flags := c.next)
      else Receive(v.(flags := c.next))
  }

  /** The bytes requestServer writes: the staged file (nothing if it vanished), or the request line. */
  function Outgoing(v: View, input: Option<string>): seq<byte>
  {
    if v.flags.isRequestSendingFile then
      match v.flags.fileToSend
      case None => []
      case Some(name) => if name in v.files then v.files[name] else []
    else if input.None? then []
    else
      var r := UserCommand(input.value, v.flags, v.files).request;
      if r == "-" then [] else LineBytes(r)
  }

  /** Between requests nothing is expected as raw bytes, and a byte expectation always has a name. */
  predicate Idle(v: View)
  {
    Coherent(v.flags) && (v.connected ==> !v.flags.isResponseBytes)
  }

  /**
   * A request round keeps the client idle: a SEND's bytes are consumed within the
   * round that armed them, and a failure that leaves them pending also disconnects.
   */
  lemma RequestKeepsIdle(v: View, input: Option<string>)
    requires InboxValid(v.inbox) && Idle(v)
    ensures Idle(Request(v, input))
  {
    var f := v.flags;
    if !f.isRequestSendingFile && input.Some? {
      CommandKeepsIdle(v, input.value);
    } else if f.isRequestSendingFile && f.fileToSend.Some? {
      ReceiveKeepsIdle(v.(flags := Prepared(v, input)));
    }
  }

  /** The user-command half of RequestKeepsIdle. */
  lemma CommandKeepsIdle(v: View, m: string)
    requires InboxValid(v.inbox) && Idle(v) && !v.flags.isRequestSendingFile
    ensures Idle(Request(v, Some(m)))
  {
    var f := v.flags;
    var c := UserCommand(m, f, v.files);
    assert Request(v, Some(m)) == if c.request == "-" then v.(flags := c.next) else Receive(v.(flags := c.next));
    UserCommandFlags(m, f, v.files);
    if c.request == "-" && c.next.isResponseBytes && !f.isResponseBytes {
      VerbNotDash(m, "SEND");
      assert false;
    }
    if c.request != "-" {
      ReceiveKeepsIdle(v.(flags := c.next));
    }
  }

  lemma ReceiveKeepsIdle(v: View)
    requires InboxValid(v.inbox) && Coherent(v.flags)
    ensures Idle(Receive(v))
  {
    var f := v.flags;
    if !(f.isResponseBytes && f.fileReceiveSize < 0) {
      var f1 := if f.isResponseBytes then f.(isResponseBytes := false, fileReceiveName := None) else f;
      var inbox1 := if f.isResponseBytes then AfterPayload(v.inbox, f.fileReceiveSize) else v.inbox;
      var m := Message(inbox1);
      if m.Some? && StringResponse(m, f1).Some? {
        ResponseSettles(m.value, f1);
      }
    }
  }

  /**
   * Nothing is written exactly when the request is withheld, the input has ended,
   * or the upload is armed without a staged file; an armed upload sends the staged
   * file's bytes and unstages it, unless the reply arms another.
   */
  lemma RequestWrites(v: View, input: Option<string>)
    requires InboxValid(v.inbox)
    ensures !v.flags.isRequestSendingFile && input.Some? ==>
      (Outgoing(v, input) == [] <==> UserCommand(input.value, v.flags, v.files).request == "-")
    ensures v.flags.isRequestSendingFile && v.flags.fileToSend.Some? && v.flags.fileToSend.value in v.files ==>
      Outgoing(v, input) == v.files[v.flags.fileToSend.value]
    ensures v.flags.isRequestSendingFile && v.flags.fileToSend.Some? ==>
      Request(v, input).flags.fileToSend == None
  {
    if !v.flags.isRequestSendingFile && input.Some? {
      var r := UserCommand(input.value, v.flags, v.files).request;
      if r != "-" {
        assert |LineBytes(r)| == |r| + 2;
      }
    }
    if v.flags.isRequestSendingFile && v.flags.fileToSend.Some? {
      var v1 := v.(flags := Prepared(v, input));
      var f := v1.flags;
      assert !f.isResponseBytes ==> Receive(v1).flags.fileToSend == None by {
        if !f.isResponseBytes {
          var m := Message(v1.inbox);
          if m.Some? && StringResponse(m, f).Some? {
            ResponseSettles(m.value, f);
          }
        }
      }
      if f.isResponseBytes && f.fileReceiveSize >= 0 {
        var f1 := f.(isResponseBytes := false, fileReceiveName := None);
        var m := Message(AfterPayload(v1.inbox, f.fileReceiveSize));
        if m.Some? && StringResponse(m, f1).Some? {
          ResponseSettles(m.value, f1);
        }
      }
    }
  }

  /**
   * An upload armed with nothing staged (a STOR of a missing file after an earlier
   * STOR was accepted) throws before the flag is cleared: the client disconnects
   * and stays armed, so the next request after reconnecting throws the same way.
   */
  lemma ArmedWithoutFileStaysArmed(v: View, input: Option<string>)
    requires InboxValid(v.inbox) && v.flags.isRequestSendingFile && v.flags.fileToSend.None?
    ensures var w := Request(v, input);
      && !w.connected && w.flags.isRequestSendingFile && Outgoing(v, input) == []
      && Request(w.(connected := true), input) == w
  {
  }

  // ---- the client itself ----

  class Client {
    const channel: Channel
    /** The resources directory the client sends from and saves into. */
    var clientFiles: Files
    var isConnected: bool
    var isExit: bool
    var isResponseFileSize: bool
    var isResponseBytes: bool
    var isRequestSendingFile: bool
    var fileReceiveName: Option<string>
    var fileToSend: Option<string>
    var fileReceiveSize: int

    function Anticipation(): Flags
      reads this
    {
      Flags(isResponseFileSize, isResponseBytes, isRequestSendingFile, isExit,
            fileReceiveName, fileToSend, fileReceiveSize)
    }

    function Snapshot(): View
      reads this, channel
    {
      View(Anticipation(), clientFiles,
           Inbox(channel.byteInput, channel.bytesReady, channel.lineInput, channel.linesReady), isConnected)
    }

    ghost predicate Valid()
      reads this, channel
    {
      && channel.Valid() && channel.isClient
      && (isConnected <==> channel.isOpen)
      && Idle(Snapshot())
    }

    /** main's initial values, once connectToServer has opened the socket. */
    constructor (channel: Channel, files: Files)
      requires channel.Valid() && channel.isClient && channel.isOpen
      ensures Valid() && this.channel == channel && clientFiles == files && isConnected
      ensures Anticipation() == Flags(false, false, false, false, None, None, 0)
    {
      this.channel := channel;
      clientFiles := files;
      isConnected := true;
      isExit := false;
      isResponseFileSize := false;
      isResponseBytes := false;
      isRequestSendingFile := false;
      fileReceiveName := None;
      fileToSend := None;
      fileReceiveSize := 0;
    }

    /** main's catch-all: the socket is closed and the client marked disconnected. */
    method Disconnect()
      modifies this`isConnected, channel`isOpen
      ensures !isConnected && !channel.isOpen
    {
      channel.Terminate();
      isConnected := false;
    }

    method ProcessUserCommand(message: string) returns (request: string)
      modifies this`fileToSend, this`isResponseFileSize, this`fileReceiveName, this`isResponseBytes
      ensures Command(request, Anticipation()) == UserCommand(message, old(Anticipation()), clientFiles)
    {
      request := Strip(message);
      var args := JavaSplit(message, ' ');
      if Contains(message, "STOR") {
        if |args| == 3 {
          var fileName := args[2];
          if fileName !in clientFiles {
            fileToSend := None;
            request := "-";
          } else {
            fileToSend := Some(fileName);
          }
        }
      } else if Contains(message, "RETR") {
        if |args| == 2 {
          isResponseFileSize := true;
          fileReceiveName := Some(args[1]);
        }
      } else if Contains(message, "SEND") {
        if |args| == 1 && fileReceiveName.Some? {
          isResponseBytes := true;
        }
      } else if Contains(message, "SIZE") {
        if |args| == 1 && fileToSend.Some? {
          request := message + " " + NatToDecimal(FileLength(clientFiles, fileToSend.value));
        }
      }
    }

    method ProcessStringResponse(response: Option<string>)
      modifies this`isExit, this`isResponseFileSize, this`isResponseBytes, this`isRequestSendingFile
      modifies this`fileReceiveName, this`fileReceiveSize, this`isConnected, channel`isOpen
      ensures var n := StringResponse(response, old(Anticipation()));
        && (n.None? ==> !isConnected && !channel.isOpen && Anticipation() == old(Anticipation()))
        && (n.Some? ==> Anticipation() == n.value && isConnected == old(isConnected)
                        && channel.isOpen == old(channel.isOpen))
    {
      if response.None? {
        return;
      }
      var r := response.value;
      if |r| == 0 {
        Disconnect();
        return;
      }
      if r[0] == '-' {
        if Contains(r, LUNCH) {
          isExit := true;
        } else if isResponseFileSize {
          isResponseFileSize := false;
          fileReceiveName := None;
        }
      } else {
        if Contains(r, GOODBYE) {
          isExit := true;
        } else if isResponseFileSize {
          var n := ParseJavaInt(r);
          if n.None? {
            Disconnect();
            return;
          }
          fileReceiveSize := n.value;
          isResponseFileSize := false;
        } else if Contains(r, GO_AHEAD) {
          isRequestSendingFile := true;
        } else if Contains(r, ABORTED) && fileReceiveName.Some? {
          isResponseBytes := false;
          fileReceiveName := None;
        }
      }
    }

    method GetServerResponse()
      requires channel.Valid() && (isConnected <==> channel.isOpen)
      modifies this`clientFiles, this`isExit, this`isResponseFileSize, this`isResponseBytes
      modifies this`isRequestSendingFile, this`fileReceiveName, this`fileReceiveSize, this`isConnected
      modifies channel`byteInput, channel`bytesReady, channel`lineInput, channel`linesReady, channel`isOpen
      ensures channel.Valid() && (isConnected <==> channel.isOpen)
      ensures Snapshot() == Receive(old(Snapshot()))
    {
      if isResponseBytes && fileReceiveSize < 0 {
        Disconnect();
        return;
      }
      ReceiveFile();
      ReadResponse();
    }

    /** The byte half of getServerResponse. */
    method ReceiveFile()
      requires channel.Valid() && (isResponseBytes ==> fileReceiveSize >= 0)
      modifies this`clientFiles, this`isResponseBytes, this`fileReceiveName
      modifies channel`byteInput, channel`bytesReady
      ensures channel.Valid()
      ensures Snapshot() == FileReceived(old(Snapshot()))
    {
      if isResponseBytes {
        var fileBytes := channel.ReadBytes(fileReceiveSize);
        clientFiles := clientFiles[ReceiveName(Anticipation()) := fileBytes[..]];
        isResponseBytes := false;
        fileReceiveName := None;
      }
    }

    /** The string half of getServerResponse. */
    method ReadResponse()
      requires channel.Valid() && (isConnected <==> channel.isOpen)
      modifies this`isExit, this`isResponseFileSize, this`isResponseBytes, this`isRequestSendingFile
      modifies this`fileReceiveName, this`fileReceiveSize, this`isConnected
      modifies channel`lineInput, channel`linesReady, channel`isOpen
      ensures channel.Valid() && (isConnected <==> channel.isOpen)
      ensures Snapshot() == Answer(old(Snapshot()))
    {
      var response := channel.ReadMessage();
      ProcessStringResponse(response);
    }

    method RequestServer(input: Option<string>)
      requires Valid() && isConnected
      modifies this`clientFiles, this`isExit, this`isResponseFileSize, this`isResponseBytes
      modifies this`isRequestSendingFile, this`fileReceiveName, this`fileToSend, this`fileReceiveSize
      modifies this`isConnected
      modifies channel`sent, channel`byteInput, channel`bytesReady, channel`lineInput, channel`linesReady
      modifies channel`isOpen
      ensures Valid()
      ensures Snapshot() == Request(old(Snapshot()), input)
      ensures channel.sent == old(channel.sent) + Outgoing(old(Snapshot()), input)
    {
      ghost var v := Snapshot();
      RequestKeepsIdle(v, input);
      if !isRequestSendingFile {
        if input.None? {
          Disconnect();
          return;
        }
        var request := ProcessUserCommand(input.value);
        if request != "-" {
          channel.WriteLine(request);
          GetServerResponse();
        }
      } else {
        if fileToSend.None? {
          Disconnect();
          return;
        }
        var name := fileToSend.value;
        channel.WriteBytes(if name in clientFiles then clientFiles[name] else []);
        fileToSend := None;
        isRequestSendingFile := false;
        GetServerResponse();
      }
    }
  }
}
