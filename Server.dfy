/**
 * The server's command grammar and dispatch (class Server): the format table,
 * the user and login gates, the handlers over the file system and the
 * credentials, and the STOR -> SIZE -> payload and RETR -> SEND sequencing
 * through the staged name.  The transport is a Channel: the reply lines
 * written and the payload bytes consumed.
 */
module SftpServer {
  import opened Wrappers
  import opened Text
  import opened Sftp
  import opened Credentials
  import opened ServerFileSystem

  const INVALID := "-Invalid command"
  const NO_USER := "-No User-id selected"
  const NO_LOGIN := "- No Login found"
  const SIZE_INVALID := "-Size is invalid"
  const SENT := "+File Saved on Client's side"
  const NOTHING_STAGED := "-No File selected on remote server"

  /** Verbs taking exactly one argument. */
  predicate OneArgVerb(v: string)
  {
    v == "USER" || v == "ACCT" || v == "PASS" || v == "CDIR" || v == "NAME"
    || v == "TOBE" || v == "TYPE" || v == "RETR" || v == "KILL" || v == "SIZE"
  }

  /** Verbs taking none. */
  predicate BareVerb(v: string)
  {
    v == "SEND" || v == "STOP" || v == "DONE"
  }

  /** Verbs whose handler needs a login. */
  predicate LoginGated(v: string)
  {
    v == "TYPE" || v == "SIZE" || v == "STOP" || v == "STOR" || v == "SEND" || v == "RETR"
    || v == "KILL" || v == "NAME" || v == "TOBE" || v == "CDIR" || v == "LIST"
  }

  /** Gated verbs that also drop the staged STOR name when refused. */
  predicate DropsName(v: string)
  {
    v == "TYPE" || v == "SIZE" || v == "STOR"
  }

  /** isValidRequestFormat, one case per verb of the switch. */
  predicate IsValidRequestFormat(request: seq<string>)
  {
    if |request| < 1 then false
    else
      var cmd := request[0];
      if cmd == "USER" || cmd == "ACCT" || cmd == "CDIR" || cmd == "NAME" || cmd == "TOBE"
        || cmd == "TYPE" || cmd == "RETR" || cmd == "KILL" || cmd == "SIZE" || cmd == "PASS" then
        |request| == 2
      else if cmd == "SEND" || cmd == "STOP" || cmd == "DONE" then
        !(|request| > 1)
      else if cmd == "STOR" then
        |request| == 3 && (request[1] == "NEW" || request[1] == "OLD" || request[1] == "APP")
      else if cmd == "LIST" then
        (|request| == 2 || |request| == 3) && (request[1] == "F" || request[1] == "V")
      else false
  }

  /** The format rules as an arity table. */
  lemma RequestFormatTable(request: seq<string>)
    ensures IsValidRequestFormat(request) <==>
      && |request| >= 1
      && (|| (OneArgVerb(request[0]) && |request| == 2)
          || (BareVerb(request[0]) && |request| == 1)
          || (request[0] == "STOR" && |request| == 3 && request[1] in {"NEW", "OLD", "APP"})
          || (request[0] == "LIST" && 2 <= |request| <= 3 && request[1] in {"F", "V"}))
  {
  }

  /** The reply a request gets from the gates alone, or None when a handler runs. */
  function GateReply(request: seq<string>, selected: bool, loggedIn: bool): Option<string>
  {
    if !IsValidRequestFormat(request) then Some(INVALID)
    else if request[0] == "USER" then None
    else if !selected then Some(NO_USER)
    else if LoginGated(request[0]) && !loggedIn then Some(NO_LOGIN)
    else None
  }

  /**
   * USER always reaches its handler; any other verb, DONE included, needs a
   * selected user; the file verbs need a login, while ACCT, PASS and DONE do not.
   */
  lemma GateOrder(request: seq<string>, selected: bool, loggedIn: bool)
    requires IsValidRequestFormat(request)
    ensures request[0] == "USER" ==> GateReply(request, selected, loggedIn) == None
    ensures request[0] != "USER" && !selected ==> GateReply(request, selected, loggedIn) == Some(NO_USER)
    ensures GateReply(request, selected, loggedIn) == None <==>
      request[0] == "USER" || (selected && (LoginGated(request[0]) ==> loggedIn))
    ensures selected && (request[0] == "ACCT" || request[0] == "PASS" || request[0] == "DONE") ==> GateReply(request, selected, loggedIn) == None
  {
  }

  /** Integer.parseUnsignedInt: an optional '+' and decimal digits, below 2^32. */
  function ParseUnsignedInt(s: string): (r: Option<nat>)
    ensures r.Some? ==> r.value < 0x1_0000_0000
  {
    var digits := if |s| > 0 && s[0] == '+' then s[1..] else s;
    match ParseDecimal(digits)
    case None => None
    case Some(n) => if n < 0x1_0000_0000 then Some(n) else None
  }

  /** Every size the client can send in decimal is read back as itself. */
  lemma SizeRoundTrip(n: nat)
    requires n < 0x1_0000_0000
    ensures ParseUnsignedInt(NatToDecimal(n)) == Some(n)
  {
    DecimalRoundTrip(n);
    assert NatToDecimal(n)[0] != '+' by { assert IsDigit(NatToDecimal(n)[0]); }
  }

  /** The int the parsed value becomes: values of 2^31 and above wrap negative. */
  function JavaInt(n: nat): int
    requires n < 0x1_0000_0000
  {
    if n < 0x8000_0000 then n else n - 0x1_0000_0000
  }

  /** handleSIZE drops the staged name on every refusal and keeps it on admission. */
  lemma AdmissionReplyDash(mode: Option<string>, size: int)
    requires Admit(mode, size).Some?
    ensures var a := Admit(mode, size).value;
      Contains(a.reply, "-") <==> a.reply != WAITING
  {
    var a := Admit(mode, size).value;
    if a.reply == WAITING {
      assert forall k :: 0 <= k < |WAITING| ==> WAITING[k] != '-';
      NotContainsChar(WAITING, "-", 0);
    } else {
      assert a.reply[0] == '-';
      assert a.reply[0..1] == "-";
      assert OccursAt(a.reply, "-", 0);
    }
  }

  /** The bytes SEND puts on the wire for a staged file: what the host now holds there. */
  function FileBytes(tree: Tree, file: Option<Path>): seq<byte>
  {
    if file.Some? && Exists(tree, file.value) && tree[Normalize(file.value)].File? then
      tree[Normalize(file.value)].data
    else []
  }

  function Goodbye(localHost: string): string
  {
    "+ Thanks for using " + localHost + " SFTP Service. Goodbye!"
  }

  class Server {
    const channel: Channel
    const fs: FileSystem
    const creds: CredentialsManager
    const localHost: string
    var fileNameToReceive: Option<string>
    var fileBytesToReceive: Option<seq<byte>>
    var isConnected: bool
    /** False once an exception nothing catches has ended the server. */
    var running: bool

    ghost predicate Valid()
      reads this, channel, creds, creds.users, creds.currentUser, creds.currentAccount
    {
      && channel.Valid()
      && creds.Valid()
      && (isConnected ==> channel.isOpen)
      && fileBytesToReceive == None
    }

    /** The staged name is the static field that outlives a connection, so it is handed in. */
    constructor (channel: Channel, fs: FileSystem, creds: CredentialsManager, localHost: string, staged: Option<string>)
      requires channel.Valid() && channel.isOpen && creds.Valid()
      ensures Valid() && isConnected && running
      ensures this.channel == channel && this.fs == fs && this.creds == creds && this.localHost == localHost
      ensures fileNameToReceive == staged && fileBytesToReceive == None
    {
      this.channel := channel;
      this.fs := fs;
      this.creds := creds;
      this.localHost := localHost;
      fileNameToReceive := staged;
      fileBytesToReceive := None;
      isConnected := true;
      running := true;
    }

    predicate LoggedIn()
      reads this, creds, creds.currentUser, creds.currentAccount
    {
      creds.IsCurrentUserSelected() && creds.IsAUserLoggedIn()
    }

    // ---- what each handler does, stated once ----

    /** The credentials and the current account's flag are as they were. */
    twostate predicate KeepsCreds()
      reads creds, creds.currentAccount
    {
      unchanged(creds) && (creds.currentAccount != null ==> unchanged(creds.currentAccount))
    }

    /** ... and so is the connection. */
    twostate predicate KeepsSession()
      reads this, creds, creds.currentAccount
    {
      KeepsCreds() && isConnected == old(isConnected) && running == old(running)
    }

    twostate predicate KeepsFiles()
      reads fs
    {
      unchanged(fs)
    }

    /** Exactly one reply line was written. */
    twostate predicate WroteLine(r: string)
      reads channel
    {
      channel.sent == old(channel.sent) + LineBytes(r) && unchanged(channel`isOpen, channel`byteInput, channel`bytesReady)
    }

    /** One reply and nothing else; the staged name is dropped when `drops`. */
    twostate predicate OnlyReplied(r: string, drops: bool)
      reads this, channel, fs, creds, creds.currentAccount
    {
      && WroteLine(r) && KeepsSession() && KeepsFiles()
      && fileNameToReceive == (if drops then None else old(fileNameToReceive))
    }

    /** A file-system operation produced `r`; only the file system and the wire changed. */
    twostate predicate FileOp(r: string)
      reads this, channel, creds, creds.currentAccount
    {
      WroteLine(r) && KeepsSession() && fileNameToReceive == old(fileNameToReceive)
    }

    twostate predicate DidSTOP()
      reads this, channel, fs, creds, creds.currentAccount
    {
      && FileOp(if old(fs.fileToSend).Some? then "+ok, RETR aborted" else NOTHING_STAGED)
      && fs.fileToSend == None && unchanged(fs`tree, fs`currentDir, fs`fileToRename, fs`currSTOR)
    }

    twostate predicate DidSTOR(mode: string, fileName: string)
      reads this, channel, fs, creds, creds.currentAccount
    {
      && WroteLine(StorPreview(mode, old(fs.CheckFileExists(fileName, true)))) && KeepsSession()
      && fs.currSTOR == Some(mode) && unchanged(fs`tree, fs`currentDir, fs`fileToSend, fs`fileToRename)
      && fileNameToReceive == Some(fileName)
    }

    twostate predicate DidSEND()
      reads this, channel, fs, creds, creds.currentAccount
    {
      var f := old(fs.fileToSend);
      && channel.sent == old(channel.sent) + FileBytes(fs.tree, f) + LineBytes(if f.Some? then SENT else NOTHING_STAGED)
      && unchanged(channel`isOpen, channel`byteInput, channel`bytesReady)
      && KeepsSession()
      && fs.fileToSend == None && unchanged(fs`tree, fs`currentDir, fs`fileToRename, fs`currSTOR)
      && fileNameToReceive == old(fileNameToReceive)
    }

    twostate predicate DidRETR(fileName: string)
      reads this, channel, fs, creds, creds.currentAccount
    {
      var r := Retr(fs.tree, fs.currentDir, fileName);
      && FileOp(r.reply) && fs.fileToSend == r.file
      && unchanged(fs`tree, fs`currentDir, fs`fileToRename, fs`currSTOR)
    }

    twostate predicate DidKILL(fileName: string, host: Host)
      reads this, channel, fs, creds, creds.currentAccount
    {
      var r := Kill(old(fs.tree), fs.currentDir, fileName, host);
      && FileOp(r.reply) && fs.tree == r.tree
      && unchanged(fs`currentDir, fs`fileToSend, fs`fileToRename, fs`currSTOR)
    }

    twostate predicate DidNAME(fileName: string)
      reads this, channel, fs, creds, creds.currentAccount
    {
      var r := Name(fs.tree, fs.currentDir, fileName);
      && FileOp(r.reply) && fs.fileToRename == r.staged
      && unchanged(fs`tree, fs`currentDir, fs`fileToSend, fs`currSTOR)
    }

    twostate predicate DidTOBE(fileName: string, host: Host)
      reads this, channel, fs, creds, creds.currentAccount
    {
      var r := Tobe(old(fs.tree), fs.currentDir, old(fs.fileToRename), fileName, host);
      && FileOp(r.reply) && fs.tree == r.tree && fs.fileToRename == r.staged
      && unchanged(fs`currentDir, fs`fileToSend, fs`currSTOR)
    }

    /** A failed getParent ends the connection with nothing written. */
    twostate predicate DidCDIR(dir: string, host: Host)
      reads this, channel, fs, creds, creds.currentAccount
    {
      var r := ChangeDir(fs.tree, fs.base, old(fs.currentDir), dir, host);
      && unchanged(fs`tree, fs`fileToSend, fs`fileToRename, fs`currSTOR)
      && fileNameToReceive == old(fileNameToReceive)
      && (r.None? ==>
            && unchanged(channel`sent, channel`isOpen) && unchanged(creds) && !isConnected
            && fs.currentDir == old(fs.currentDir))
      && (r.Some? ==> FileOp(r.value.reply) && fs.currentDir == r.value.dir)
    }

    twostate predicate DidLIST(args: seq<string>, host: Host)
      requires |args| >= 1
      reads this, channel, fs, creds, creds.currentAccount
    {
      var dir := if |args| == 2 then args[1] else "";
      FileOp(Listing(fs.tree, fs.currentDir, dir, args[0], host)) && KeepsFiles()
    }

    /**
     * SIZE after login: an unparsable size is refused and keeps the staged name; a
     * null STOR mode ends the connection with nothing written; otherwise the
     * admission reply goes out and SizeAdmitted says what follows.
     */
    twostate predicate DidSIZE(fileSize: string, host: Host)
      reads this, channel, fs, creds, creds.currentAccount
    {
      var parsed := ParseUnsignedInt(fileSize);
      && KeepsCreds()
      && unchanged(fs`currentDir, fs`fileToSend, fs`fileToRename)
      && (parsed.None? ==> OnlyReplied(SIZE_INVALID, false))
      && (parsed.Some? && Admit(old(fs.currSTOR), JavaInt(parsed.value)).None? ==>
            && unchanged(channel`sent, channel`isOpen) && !isConnected && running == old(running)
            && KeepsFiles() && fileNameToReceive == old(fileNameToReceive))
      && (parsed.Some? && Admit(old(fs.currSTOR), JavaInt(parsed.value)).Some? ==>
            SizeAdmitted(JavaInt(parsed.value), Admit(old(fs.currSTOR), JavaInt(parsed.value)).value, host))
    }

    /**
     * After the admission reply: a refusal (any reply but the go-ahead; these are the ones
     * holding a "-", by AdmissionReplyDash) drops the staged name; with
     * a name still staged exactly `size` bytes are read and saved, after which the
     * name and bytes are cleared.  A size that wrapped negative ends the server
     * when it reaches the byte read.
     */
    twostate predicate SizeAdmitted(size: int, adm: Admitted, host: Host)
      reads this, channel, fs
    {
      var staged := if adm.reply != WAITING then None else old(fileNameToReceive);
      && (staged.None? ==>
            && WroteLine(adm.reply) && fs.tree == old(fs.tree) && fs.currSTOR == adm.mode
            && fileNameToReceive == None && isConnected == old(isConnected) && running == old(running))
      && (staged.Some? && size < 0 ==>
            && WroteLine(adm.reply) && fs.tree == old(fs.tree) && fs.currSTOR == adm.mode
            && isConnected == old(isConnected) && !running)
      && (staged.Some? && size >= 0 ==>
            var k := ReadCount(old(channel.byteInput), old(channel.bytesReady), size);
            var bytes := ReadPrefix(old(channel.byteInput), old(channel.bytesReady), size);
            var saved := Save(old(fs.tree), fs.base, adm.mode, staged.value, bytes, host);
            && channel.sent == old(channel.sent) + LineBytes(adm.reply) + LineBytes(saved.response)
            && channel.byteInput == old(channel.byteInput)[k..]
            && fs.tree == saved.tree && fs.currSTOR == saved.mode
            && fileNameToReceive == None
            && isConnected == old(isConnected) && running == old(running))
    }

    /** DONE: the goodbye line, then the transport is closed. */
    twostate predicate DidDONE()
      reads this, channel, fs, creds, creds.currentAccount
    {
      && channel.sent == old(channel.sent) + LineBytes(Goodbye(localHost))
      && !channel.isOpen && !isConnected && running == old(running)
      && KeepsCreds() && KeepsFiles() && fileNameToReceive == old(fileNameToReceive)
    }

    // ---- the handlers ----

    /** handleUSER: not gated; the credentials manager's reply is written. */
    method HandleUSER(userName: string) returns (response: string)
      requires Valid() && isConnected
      modifies channel`sent, creds`currentUser, creds`currentAccount, creds.currentAccount
      ensures Valid() && response == old(creds.UserReply(userName)) && WroteLine(response) && KeepsFiles()
    {
      response := creds.SetCurrentUser(userName);
      channel.WriteLine(response);
    }

    /** handleACCT: not login-gated. */
    method HandleACCT(accountName: string) returns (response: string)
      requires Valid() && isConnected && creds.IsCurrentUserSelected()
      modifies channel`sent, creds`currentAccount, creds.Selectable()
      ensures Valid() && response == old(creds.AccountReply(accountName)) && WroteLine(response) && KeepsFiles()
    {
      response := creds.SetCurrentAccount(accountName);
      channel.WriteLine(response);
    }

    /** handlePASS: not login-gated. */
    method HandlePASS(password: string) returns (response: string)
      requires Valid() && isConnected
      modifies channel`sent, creds.currentAccount
      ensures Valid() && response == old(creds.PassReply(password)) && WroteLine(response) && KeepsFiles()
    {
      response := creds.AttemptLogin(password);
      channel.WriteLine(response);
    }

    /** handleTYPE. */
    method HandleTYPE(t: string)
      requires Valid() && isConnected && creds.IsCurrentUserSelected()
      modifies this`fileNameToReceive, channel`sent
      ensures Valid()
      ensures !old(LoggedIn()) ==> OnlyReplied(NO_LOGIN, true)
      ensures old(LoggedIn()) ==> OnlyReplied(channel.SetTransmissionType(t), false)
    {
      var response;
      if creds.IsAUserLoggedIn() {
        response := channel.SetTransmissionType(t);
      } else {
        fileNameToReceive := None;
        response := NO_LOGIN;
      }
      channel.WriteLine(response);
    }

    /** handleSIZE. */
    method HandleSIZE(fileSize: string, host: Host)
      requires Valid() && isConnected && creds.IsCurrentUserSelected()
      modifies this`fileNameToReceive, this`fileBytesToReceive, this`isConnected, this`running
      modifies channel`sent, channel`byteInput, channel`bytesReady, fs`tree, fs`currSTOR
      ensures Valid()
      ensures !old(LoggedIn()) ==> OnlyReplied(NO_LOGIN, true)
      ensures old(LoggedIn()) ==> DidSIZE(fileSize, host)
    {
      if !creds.IsAUserLoggedIn() {
        fileNameToReceive := None;
        channel.WriteLine(NO_LOGIN);
        return;
      }
      var parsed := ParseUnsignedInt(fileSize);
      if parsed.None? {
        channel.WriteLine(SIZE_INVALID);
        return;
      }
      AdmitAndReceive(JavaInt(parsed.value), host);
    }

    /** The part of handleSIZE after the size is parsed: admission, then the payload. */
    method AdmitAndReceive(clientFilesize: int, host: Host)
      requires Valid() && isConnected
      modifies this`fileNameToReceive, this`fileBytesToReceive, this`isConnected, this`running
      modifies channel`sent, channel`byteInput, channel`bytesReady, fs`tree, fs`currSTOR
      ensures Valid() && KeepsCreds()
      ensures Admit(old(fs.currSTOR), clientFilesize).None? ==>
        && unchanged(channel`sent, channel`isOpen) && !isConnected && running == old(running)
        && KeepsFiles() && fileNameToReceive == old(fileNameToReceive)
      ensures Admit(old(fs.currSTOR), clientFilesize).Some? ==>
        SizeAdmitted(clientFilesize, Admit(old(fs.currSTOR), clientFilesize).value, host)
    {
      if fs.currSTOR.None? {
        // checkFreeSpaceForSTOR dereferences the null mode and throws out of the handler;
        // the main loop drops the connection
        isConnected := false;
        return;
      }
      AfterAdmission(clientFilesize, host);
    }

    /** The admission reply written, then the payload read when a name is still staged. */
    method AfterAdmission(clientFilesize: int, host: Host)
      requires Valid() && isConnected && fs.currSTOR.Some?
      modifies this`fileNameToReceive, this`fileBytesToReceive, this`running
      modifies channel`sent, channel`byteInput, channel`bytesReady, fs`tree, fs`currSTOR
      ensures Valid() && SizeAdmitted(clientFilesize, Admit(old(fs.currSTOR), clientFilesize).value, host)
    {
      var reply := fs.CheckFreeSpaceForSTOR(clientFilesize);
      channel.WriteLine(reply.value);
      DropIfRefused(old(fs.currSTOR), clientFilesize, reply.value);
      if fileNameToReceive.Some? {
        if clientFilesize < 0 {
          // new byte[negative] throws an exception nothing catches
          running := false;
          return;
        }
        ReceivePayload(clientFilesize, host);
      }
    }

    /** The refusal test of handleSIZE: a reply holding '-' drops the staged name. */
    method DropIfRefused(ghost mode: Option<string>, size: int, reply: string)
      requires Admit(mode, size).Some? && reply == Admit(mode, size).value.reply
      modifies this`fileNameToReceive
      ensures fileNameToReceive == if reply != WAITING then None else old(fileNameToReceive)
    {
      AdmissionReplyDash(mode, size);
      if Contains(reply, "-") {
        fileNameToReceive := None;
      }
    }

    /** Reading exactly `size` payload bytes and saving them under the staged name. */
    method ReceivePayload(size: nat, host: Host)
      requires Valid() && isConnected && fileNameToReceive.Some?
      modifies this`fileNameToReceive, this`fileBytesToReceive
      modifies channel`sent, channel`byteInput, channel`bytesReady, fs`tree, fs`currSTOR
      ensures Valid()
      ensures var k := ReadCount(old(channel.byteInput), old(channel.bytesReady), size);
        var bytes := ReadPrefix(old(channel.byteInput), old(channel.bytesReady), size);
        var saved := Save(old(fs.tree), fs.base, old(fs.currSTOR), old(fileNameToReceive).value, bytes, host);
        && channel.sent == old(channel.sent) + LineBytes(saved.response)
        && channel.byteInput == old(channel.byteInput)[k..]
        && fs.tree == saved.tree && fs.currSTOR == saved.mode
        && fileNameToReceive == None
    {
      var buf := channel.ReadBytes(size);
      fileBytesToReceive := Some(buf[..]);
      var response := fs.ProcessSTORSequence(buf[..], fileNameToReceive.value, host);
      channel.WriteLine(response);
      fileNameToReceive := None;
      fileBytesToReceive := None;
    }

    /** handleSTOP. */
    method HandleSTOP()
      requires Valid() && isConnected && creds.IsCurrentUserSelected()
      modifies channel`sent, fs`fileToSend
      ensures Valid()
      ensures !old(LoggedIn()) ==> OnlyReplied(NO_LOGIN, false)
      ensures old(LoggedIn()) ==> DidSTOP()
    {
      var response;
      if creds.IsAUserLoggedIn() {
        response := fs.CancelSend();
      } else {
        response := NO_LOGIN;
      }
      channel.WriteLine(response);
    }

    /** handleSTOR: the name is staged for the SIZE that follows. */
    method HandleSTOR(mode: string, fileName: string)
      requires Valid() && isConnected && creds.IsCurrentUserSelected()
      modifies this`fileNameToReceive, this`fileBytesToReceive, channel`sent, fs`currSTOR
      ensures Valid()
      ensures !old(LoggedIn()) ==> OnlyReplied(NO_LOGIN, true)
      ensures old(LoggedIn()) ==> DidSTOR(mode, fileName)
    {
      var response;
      if creds.IsAUserLoggedIn() {
        response := fs.SetFileOperation(fileName, mode);
        fileNameToReceive := Some(fileName);
      } else {
        fileBytesToReceive := None;
        fileNameToReceive := None;
        response := NO_LOGIN;
      }
      channel.WriteLine(response);
    }

    /** handleSEND: the staged file's bytes, then the confirmation; the stage is consumed. */
    method HandleSEND()
      requires Valid() && isConnected && creds.IsCurrentUserSelected()
      modifies channel`sent, fs`fileToSend
      ensures Valid()
      ensures !old(LoggedIn()) ==> OnlyReplied(NO_LOGIN, false)
      ensures old(LoggedIn()) ==> DidSEND()
    {
      if !creds.IsAUserLoggedIn() {
        channel.WriteLine(NO_LOGIN);
        return;
      }
      var serverFile := fs.GetFileToSend();
      if serverFile.None? {
        channel.WriteLine(NOTHING_STAGED);
        return;
      }
      channel.WriteBytes(FileBytes(fs.tree, serverFile));
      channel.WriteLine(SENT);
    }

    /** handleRETR. */
    method HandleRETR(fileName: string)
      requires Valid() && isConnected && creds.IsCurrentUserSelected()
      modifies channel`sent, fs`fileToSend
      ensures Valid()
      ensures !old(LoggedIn()) ==> OnlyReplied(NO_LOGIN, false)
      ensures old(LoggedIn()) ==> DidRETR(fileName)
    {
      var response;
      if creds.IsAUserLoggedIn() {
        response := fs.GetRequestedFileSize(fileName);
      } else {
        response := NO_LOGIN;
      }
      channel.WriteLine(response);
    }

    /** handleKILL. */
    method HandleKILL(fileName: string, host: Host)
      requires Valid() && isConnected && creds.IsCurrentUserSelected()
      modifies channel`sent, fs`tree
      ensures Valid()
      ensures !old(LoggedIn()) ==> OnlyReplied(NO_LOGIN, false)
      ensures old(LoggedIn()) ==> DidKILL(fileName, host)
    {
      var response;
      if creds.IsAUserLoggedIn() {
        response := fs.DeleteFile(fileName, host);
      } else {
        response := NO_LOGIN;
      }
      channel.WriteLine(response);
    }

    /** handleNAME. */
    method HandleNAME(fileName: string)
      requires Valid() && isConnected && creds.IsCurrentUserSelected()
      modifies channel`sent, fs`fileToRename
      ensures Valid()
      ensures !old(LoggedIn()) ==> OnlyReplied(NO_LOGIN, false)
      ensures old(LoggedIn()) ==> DidNAME(fileName)
    {
      var response;
      if creds.IsAUserLoggedIn() {
        response := fs.CheckFileName(fileName);
      } else {
        response := NO_LOGIN;
      }
      channel.WriteLine(response);
    }

    /** handleTOBE. */
    method HandleTOBE(fileName: string, host: Host)
      requires Valid() && isConnected && creds.IsCurrentUserSelected()
      modifies channel`sent, fs`tree, fs`fileToRename
      ensures Valid()
      ensures !old(LoggedIn()) ==> OnlyReplied(NO_LOGIN, false)
      ensures old(LoggedIn()) ==> DidTOBE(fileName, host)
    {
      var response;
      if creds.IsAUserLoggedIn() {
        response := fs.ChangeFileName(fileName, host);
      } else {
        response := NO_LOGIN;
      }
      channel.WriteLine(response);
    }

    /** handleCDIR. */
    method HandleCDIR(dir: string, host: Host)
      requires Valid() && isConnected && creds.IsCurrentUserSelected()
      modifies this`isConnected, channel`sent, fs`currentDir
      ensures Valid()
      ensures !old(LoggedIn()) ==> OnlyReplied(NO_LOGIN, false)
      ensures old(LoggedIn()) ==> DidCDIR(dir, host)
    {
      var response;
      if creds.IsAUserLoggedIn() {
        var r := fs.ChangeCurrentDir(dir, host);
        if r.None? {
          // getParent of "/" is null and new File(null) throws; the main loop drops the connection
          isConnected := false;
          return;
        }
        response := r.value;
      } else {
        response := NO_LOGIN;
      }
      channel.WriteLine(response);
    }

    /** handleLIST: the mode and an optional directory. */
    method HandleLIST(args: seq<string>, host: Host)
      requires Valid() && isConnected && creds.IsCurrentUserSelected() && 1 <= |args| <= 2
      modifies channel`sent
      ensures Valid()
      ensures !old(LoggedIn()) ==> OnlyReplied(NO_LOGIN, false)
      ensures old(LoggedIn()) ==> DidLIST(args, host)
    {
      var mode := args[0];
      var dir := if |args| == 2 then args[1] else "";
      if creds.IsAUserLoggedIn() {
        var response := fs.ListDir(dir, mode, host);
        channel.WriteLine(response);
      } else {
        channel.WriteLine(NO_LOGIN);
      }
    }

    /** handleDONE: needs a selected user only. */
    method HandleDONE()
      requires Valid() && isConnected
      modifies this`isConnected, channel`sent, channel`isOpen
      ensures Valid() && DidDONE()
    {
      channel.WriteLine(Goodbye(localHost));
      channel.Terminate();
      isConnected := false;
    }

    // ---- dispatch ----

    /**
     * USER, ACCT or PASS: the credentials manager's reply to the argument, as the
     * credentials stood before, is the one line written; files, staged name and
     * connection are as they were.
     */
    twostate predicate DidLogin(verb: string, arg: string)
      reads this, channel, fs
    {
      && KeepsFiles() && fileNameToReceive == old(fileNameToReceive) && isConnected == old(isConnected)
      && running == old(running)
      && (verb == "USER" ==> WroteLine(old(creds.UserReply(arg))))
      && (verb == "ACCT" && old(creds.IsCurrentUserSelected()) ==> WroteLine(old(creds.AccountReply(arg))))
      && (verb == "PASS" ==> WroteLine(old(creds.PassReply(arg))))
    }

    /** What the handler of a request that passed the gates did; one clause per verb. */
    twostate predicate Handled(request: seq<string>, host: Host)
      requires IsValidRequestFormat(request)
      reads this, channel, fs, creds, creds.currentAccount
    {
      && (OneArgVerb(request[0]) ==> HandledWithArg(request[0], request[1], host))
      && (request[0] == "STOR" ==> DidSTOR(request[1], request[2]))
      && (request[0] == "LIST" ==> DidLIST(request[1..], host))
      && (request[0] == "STOP" ==> DidSTOP())
      && (request[0] == "SEND" ==> DidSEND())
      && (request[0] == "DONE" ==> DidDONE())
    }

    /** The verbs taking exactly one argument. */
    twostate predicate HandledWithArg(verb: string, arg: string, host: Host)
      reads this, channel, fs, creds, creds.currentAccount
    {
      && (verb == "USER" || verb == "ACCT" || verb == "PASS" ==> DidLogin(verb, arg))
      && (verb == "TYPE" ==> OnlyReplied(channel.SetTransmissionType(arg), false))
      && (verb == "SIZE" ==> DidSIZE(arg, host))
      && (verb == "RETR" ==> DidRETR(arg))
      && (verb == "KILL" ==> DidKILL(arg, host))
      && (verb == "NAME" ==> DidNAME(arg))
      && (verb == "TOBE" ==> DidTOBE(arg, host))
      && (verb == "CDIR" ==> DidCDIR(arg, host))
    }

    /**
     * processClientRequest after the read: an empty message gets no reply; the
     * gates answer on their own, leaving the staged name only where the refusing
     * handler drops it; otherwise the verb's handler runs.  None stands for the
     * null a closed stream gives, which ends the connection.
     */
    method ProcessMessage(message: Option<string>, host: Host)
      requires Valid() && isConnected
      modifies this, channel`sent, channel`isOpen, channel`byteInput, channel`bytesReady
      modifies fs, creds, creds.currentAccount, creds.Selectable()
      ensures Valid()
      ensures message.None? ==> !isConnected && unchanged(channel`sent) && KeepsFiles() && KeepsCreds()
      ensures message == Some("") ==> unchanged(this, channel, fs, creds)
      ensures message.Some? && message.value != "" ==>
        var request := JavaSplit(message.value, ' ');
        var gate := GateReply(request, old(creds.IsCurrentUserSelected()), old(LoggedIn()));
        && (gate.Some? ==> OnlyReplied(gate.value, gate == Some(NO_LOGIN) && DropsName(request[0])))
        && (gate.None? ==> Handled(request, host))
    {
      if message.None? {
        isConnected := false;
        return;
      }
      var text := message.value;
      if text == "" {
        return;
      }
      ProcessRequest(JavaSplit(text, ' '), host);
    }

    /** The gates in processClientRequest's order, then the verb's handler. */
    method ProcessRequest(request: seq<string>, host: Host)
      requires Valid() && isConnected
      modifies this, channel`sent, channel`isOpen, channel`byteInput, channel`bytesReady
      modifies fs, creds, creds.currentAccount, creds.Selectable()
      ensures Valid()
      ensures var gate := GateReply(request, old(creds.IsCurrentUserSelected()), old(LoggedIn()));
        && (gate.Some? ==> OnlyReplied(gate.value, gate == Some(NO_LOGIN) && DropsName(request[0])))
        && (gate.None? ==> Handled(request, host))
    {
      if !IsValidRequestFormat(request) {
        channel.WriteLine(INVALID);
        return;
      }
      if request[0] == "USER" {
        DispatchUser(request, host);
        return;
      }
      RequireUser(request, host);
    }

    /** Any verb but USER: the user gate, then the switch. */
    method RequireUser(request: seq<string>, host: Host)
      requires Valid() && isConnected && IsValidRequestFormat(request) && request[0] != "USER"
      modifies this, channel`sent, channel`isOpen, channel`byteInput, channel`bytesReady
      modifies fs, creds`currentAccount, creds.currentAccount, creds.Selectable()
      ensures Valid()
      ensures !old(creds.IsCurrentUserSelected()) ==> OnlyReplied(NO_USER, false)
      ensures old(creds.IsCurrentUserSelected()) && LoginGated(request[0]) && !old(LoggedIn()) ==>
        OnlyReplied(NO_LOGIN, DropsName(request[0]))
      ensures old(creds.IsCurrentUserSelected()) && !(LoginGated(request[0]) && !old(LoggedIn())) ==>
        Handled(request, host)
    {
      if !creds.IsCurrentUserSelected() {
        channel.WriteLine(NO_USER);
        return;
      }
      Dispatch(request, host);
    }

    /** USER, the one verb that reaches its handler with no user selected. */
    method DispatchUser(request: seq<string>, host: Host)
      requires Valid() && isConnected && IsValidRequestFormat(request) && request[0] == "USER"
      modifies channel`sent, creds`currentUser, creds`currentAccount, creds.currentAccount
      ensures Valid() && Handled(request, host)
    {
      var _ := HandleUSER(request[1]);
    }

    /** The switch over the verbs, reached once a user is selected. */
    method Dispatch(request: seq<string>, host: Host)
      requires Valid() && isConnected && IsValidRequestFormat(request)
      requires request[0] != "USER" && creds.IsCurrentUserSelected()
      modifies this, channel`sent, channel`isOpen, channel`byteInput, channel`bytesReady
      modifies fs, creds`currentAccount, creds.currentAccount, creds.Selectable()
      ensures Valid()
      ensures LoginGated(request[0]) && !old(LoggedIn()) ==>
        OnlyReplied(NO_LOGIN, DropsName(request[0]))
      ensures !(LoginGated(request[0]) && !old(LoggedIn())) ==> Handled(request, host)
    {
      var cmd := request[0];
      if cmd == "ACCT" || cmd == "PASS" || cmd == "DONE" {
        assert !LoginGated(cmd);
        DispatchSession(request, host);
      } else if cmd == "CDIR" || cmd == "NAME" || cmd == "TOBE" || cmd == "KILL" || cmd == "RETR" || cmd == "LIST" {
        assert LoginGated(cmd) && !DropsName(cmd);
        DispatchFiles(request, host);
      } else {
        assert LoginGated(cmd);
        DispatchTransfer(request, host);
      }
    }

    /** ACCT, PASS and DONE: not login-gated. */
    method DispatchSession(request: seq<string>, host: Host)
      requires Valid() && isConnected && IsValidRequestFormat(request) && creds.IsCurrentUserSelected()
      requires request[0] == "ACCT" || request[0] == "PASS" || request[0] == "DONE"
      modifies this`isConnected, channel`sent, channel`isOpen, creds`currentAccount, creds.currentAccount, creds.Selectable()
      ensures Valid() && Handled(request, host)
    {
      if request[0] == "ACCT" {
        var _ := HandleACCT(request[1]);
      } else if request[0] == "PASS" {
        var _ := HandlePASS(request[1]);
      } else {
        HandleDONE();
      }
    }

    /** The verbs working on the current directory. */
    method DispatchFiles(request: seq<string>, host: Host)
      requires Valid() && isConnected && IsValidRequestFormat(request) && creds.IsCurrentUserSelected()
      requires var v := request[0]; v == "CDIR" || v == "NAME" || v == "TOBE" || v == "KILL" || v == "RETR" || v == "LIST"
      modifies this`isConnected, channel`sent, fs`tree, fs`currentDir, fs`fileToSend, fs`fileToRename
      ensures Valid()
      ensures !old(LoggedIn()) ==> OnlyReplied(NO_LOGIN, false)
      ensures old(LoggedIn()) ==> Handled(request, host)
    {
      var cmd := request[0];
      if cmd == "CDIR" {
        HandleCDIR(request[1], host);
      } else if cmd == "NAME" {
        HandleNAME(request[1]);
      } else if cmd == "TOBE" {
        HandleTOBE(request[1], host);
      } else if cmd == "KILL" {
        HandleKILL(request[1], host);
      } else if cmd == "RETR" {
        HandleRETR(request[1]);
      } else {
        HandleLIST(request[1..], host);
      }
    }

    /** TYPE and the transfer verbs. */
    method DispatchTransfer(request: seq<string>, host: Host)
      requires Valid() && isConnected && IsValidRequestFormat(request) && creds.IsCurrentUserSelected()
      requires var v := request[0]; v == "TYPE" || v == "SEND" || v == "SIZE" || v == "STOP" || v == "STOR"
      modifies this`fileNameToReceive, this`fileBytesToReceive, this`isConnected, this`running
      modifies channel`sent, channel`byteInput, channel`bytesReady, fs`tree, fs`currSTOR, fs`fileToSend
      ensures Valid()
      ensures !old(LoggedIn()) ==> OnlyReplied(NO_LOGIN, DropsName(request[0]))
      ensures old(LoggedIn()) ==> Handled(request, host)
    {
      var cmd := request[0];
      if cmd == "TYPE" {
        HandleTYPE(request[1]);
      } else if cmd == "SEND" {
        HandleSEND();
      } else if cmd == "SIZE" {
        HandleSIZE(request[1], host);
      } else if cmd == "STOP" {
        HandleSTOP();
      } else {
        HandleSTOR(request[1], request[2]);
      }
    }

    /** processClientRequest: read the ready lines as one message, then handle it. */
    method ProcessClientRequest(host: Host)
      requires Valid() && isConnected
      modifies this, channel, fs, creds, creds.currentAccount, creds.Selectable()
      ensures Valid()
      ensures old(channel.lineInput) == [] ==> !isConnected
    {
      var message := channel.ReadMessage();
      ProcessMessage(message, host);
    }
  }
}
