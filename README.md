# SFTP (RFC 913) client and server — a Dafny model

This project models the sequential core of a Java client and server for the Simple File
Transfer Protocol of RFC 913. The protocol's commands are USER, ACCT, PASS, TYPE, LIST,
CDIR, KILL, NAME/TOBE, RETR/SEND/STOP, STOR/SIZE and DONE. Dafny proves properties of the model.

The modules follow the program's classes:

- `Wrappers` holds `Option`, which stands for Java's `null`.
- `Text` models the `java.lang.String` operations the code relies on:
  - `contains`;
  - `split` with a one-character literal, trailing empty pieces dropped;
  - `strip`;
  - decimal numerals.
- `Sftp` is the transport class `SFTP`, modelled as the `Channel` class. It covers:
  - line framing with CR LF;
  - raw byte writes;
  - the zero-padded `readInputStreamAsBytes`;
  - the line-joining `readInputStreamAsString`;
  - the TYPE reply.
- `Credentials` holds `Account`, `User`, `CredentialsManager` and the parsing of rows of the users table.
- `ServerFileSystem` holds the server's `FileSystem` class. The disk is a map from textual
  paths to files and directories. Each operation is a pure function, and each method is
  proved to follow its function. The operations are:
  - listing;
  - CDIR with its sandbox check;
  - NAME/TOBE, KILL, RETR/STOP/SEND staging;
  - STOR admission and saving.
- `SftpServer` is the `Server` class:
  - request-format validation;
  - the USER and login gates;
  - one handler per verb, each with its effect stated once as a two-state predicate;
  - `processClientRequest`.
- `SftpClient` is the `Client` class's response anticipation. Its flags predict a size
  after RETR, raw bytes after SEND, and a go-ahead after which the staged STOR file is uploaded.

Host facts the code obtains from the operating system are parameters (the `Host` datatype):
- directory listing order;
- modification stamps;
- whether a rename, delete or write succeeds;
- an exception's text.

User input, the next server reply and the bytes on the socket are the `Channel`'s input
sequences, or method parameters.

Java's `int` is modelled where it matters:
- the server's `parseUnsignedInt` result wraps negative at 2^31;
- the client's `Integer.parseInt` rejects values outside the `int` range.

Uncaught exceptions are modelled as the code's outer loops handle them:
- On the server, a `NullPointerException` escapes a handler, and the connection is dropped. This covers a SIZE before any STOR, CDIR ".." at "/" and a null message.
- On the server, a size that wrapped negative reaches `new byte[size]` and ends the server: `running` becomes false.
- On the client, every exception that reaches `main` closes the socket and marks the client disconnected.

CDIR ".." from the base directory takes the textual parent. Nothing keeps it at the
base: `ServerFileSystem.CdirLeavesBase` proves that ".." from the base leaves it.

## Model

| member | source | states |
|---|---|---|
| Text.ContainsIff | src/sftp/client/Client.java:130 | `contains` holds exactly when the text occurs at some position |
| Text.JavaSplitPieces | src/sftp/server/Server.java:233 | `split(" ")` pieces never contain the separator; without the separator the whole string is the one piece; otherwise the pieces are all pieces with the trailing empty ones dropped |
| Text.StripDropsWhitespace | src/sftp/client/Client.java:128 | String.strip drops a leading white-space character, ASCII or not, and strips the rest as before |
| Text.WhitespaceBeyondAscii | src/sftp/client/Client.java:128 | spot check of the white-space class strip() uses (the general statement is StripDropsWhitespace): U+3000, U+2028 and U+1680 are in it, the no-break spaces U+00A0, U+2007 and U+202F are not |
| Text.SplitAllJoin | src/sftp/SFTP.java:48-69 | joining separator-free pieces and splitting again gives the pieces back |
| Text.DecimalRoundTrip | src/sftp/server/FileSystem.java:263-278 | a length written in decimal parses back to itself |
| Sftp.LineFraming | src/sftp/SFTP.java:121-132 | a written line is its text followed by exactly CR LF, and reads back as that text for Latin-1 text |
| Sftp.Channel.SetTransmissionType | src/sftp/SFTP.java:159-185 | "A", "B", "C" give the three "+Using …" replies and anything else "-Type not valid" (each an if-and-only-if); the reply starts with '+' exactly for a valid type; as a function it cannot change the stored type, which stays "B" |
| Sftp.Channel.constructor | src/sftp/SFTP.java:27-42 | the transmission type starts as "B" and nothing has been sent |
| Sftp.Channel.WriteLine | src/sftp/SFTP.java:121-132 | exactly the framed line is appended to what was sent |
| Sftp.Channel.WriteBytes | src/sftp/SFTP.java:138-152 | exactly the file's bytes, unframed, are appended |
| Sftp.Channel.Terminate | src/sftp/SFTP.java:190-197 | terminateSession: the socket is closed afterwards, whether or not it was open; nothing else changes |
| Sftp.Channel.ReadBytes | src/sftp/SFTP.java:76-116 | the array has length exactly n; it holds the first min(n, ready) input bytes, then zeros; exactly those bytes are consumed |
| Sftp.Channel.ReadMessage | src/sftp/SFTP.java:48-69 | None at end of stream; otherwise the first line and every further ready line joined with '\n', which splits back into exactly those lines; exactly they are consumed |
| Credentials.Account.constructor | src/sftp/server/credentials/Account.java:16-20 | a non-root account whose password is the given one, not logged in |
| Credentials.Account.Root | src/sftp/server/credentials/Account.java:26-29 | a root account with no password (null), not logged in |
| Credentials.Account.GetPassword | src/sftp/server/credentials/Account.java:35-41 | null for a root account, the stored password otherwise |
| Credentials.Account.SetIsLoggedIn | src/sftp/server/credentials/Account.java:64-66 | the flag becomes b; name and root mark are constants |
| Credentials.User.constructor | src/sftp/server/credentials/User.java:16-20 | name and admin mark as given, with an empty account list |
| Credentials.User.SetAccounts | src/sftp/server/credentials/User.java:34-44 | the account list becomes exactly l and nothing else changes |
| Credentials.ParseRow | src/sftp/server/credentials/CredentialsManager.java:148-173 | an "admin" first field gives an admin user with no accounts; any other gives one account per later comma field, the user named by the first field |
| Credentials.ParseAccountField | src/sftp/server/credentials/CredentialsManager.java:160-167 | "root…" gives the password-less root account; a `name.password` field gives a named account with that password |
| Credentials.RowRoundTrip | src/sftp/server/credentials/CredentialsManager.java:148-173 | every row that can be written in the table's format parses back to itself |
| Credentials.ParseTable | src/sftp/server/credentials/CredentialsManager.java:135-187 | the table loads exactly when every row parses, row by row in order |
| Credentials.FindUser | src/sftp/server/credentials/CredentialsManager.java:31-33 | the first user with the name, or None exactly when there is none |
| Credentials.FindAccount | src/sftp/server/credentials/CredentialsManager.java:82-86 | the first account of the user with the name, or None exactly when there is none |
| Credentials.CredentialsManager.LoadUsers | src/sftp/server/credentials/CredentialsManager.java:135-187 | one fresh user per row, mirroring it, and the selection invariant holds |
| Credentials.BuildUser | src/sftp/server/credentials/CredentialsManager.java:147-173 | one loop iteration of loadUsers: a fresh user with the row's name and admin flag and, in row order, one fresh logged-out account per field; a field without a password is a root account, any other stores its password; an admin row has no accounts |
| Credentials.CredentialsManager.IsCurrentUserSelected | src/sftp/server/credentials/CredentialsManager.java:193-202 | true under bypass or when a current user is set |
| Credentials.CredentialsManager.IsAUserLoggedIn | src/sftp/server/credentials/CredentialsManager.java:208-223 | true under bypass, for an admin user, or when the current account is logged in; it needs a selected user, which the Java code dereferences |
| Credentials.CredentialsManager.UserReply | src/sftp/server/credentials/CredentialsManager.java:25-56 | the reply setCurrentUser gives in a given state, the value SetCurrentUser and HandleUSER are proved to return |
| Credentials.CredentialsManager.AccountReply | src/sftp/server/credentials/CredentialsManager.java:73-104 | the reply setCurrentAccount gives in a given state, the value SetCurrentAccount and HandleACCT are proved to return |
| Credentials.CredentialsManager.PassReply | src/sftp/server/credentials/CredentialsManager.java:111-128 | the reply attemptLogin gives in a given state, the value AttemptLogin and HandlePASS are proved to return |
| Credentials.CredentialsManager.SetCurrentUser | src/sftp/server/credentials/CredentialsManager.java:25-56 | bypass: "+ Bypass Login" and no change; unknown name: "-Invalid user-id, try again", with user and account unchanged; admin: selected, account nulled, "!<name> logged in"; other user: the previous account is logged out and nulled; the invariant is kept |
| Credentials.CredentialsManager.SetCurrentAccount | src/sftp/server/credentials/CredentialsManager.java:73-104 | bypass: "+ Bypass Login"; admin user or unknown name: "-Invalid account, try again", nothing changed; a found root account is logged in at once; any other found account is logged out and prompted for a password; other accounts untouched |
| Credentials.CredentialsManager.AttemptLogin | src/sftp/server/credentials/CredentialsManager.java:111-128 | bypass: "+ Bypass Login"; no account or already logged in: "+Send account"; otherwise a non-root account, logged in exactly on an exact password match, and "-Wrong password, try again" otherwise, with no lockout |
| Credentials.CredentialsManager.SetIsBypass | src/sftp/server/credentials/CredentialsManager.java:64-66 | the bypass flag becomes b and the invariant is kept |
| Credentials.CredentialsManager.constructor | src/sftp/server/Server.java:62 | a fresh manager (the fields of CredentialsManager.java:15-18) has no user or account selected, bypass off and its invariant established; the user list starts empty, where Java leaves it null until loadUsers, called right after at Server.java:69, fills it |
| ServerFileSystem.FirstFree | src/sftp/server/FileSystem.java:419-430 | the smallest i in [from, 10000) whose `new_<i>_<name>` is free, or None exactly when all are taken |
| ServerFileSystem.DedupKeepsClass | src/sftp/server/FileSystem.java:411-415 | `new_<i>_<name>` is a text name exactly when the name is, so it stays in the same subtree |
| ServerFileSystem.SaveAbsentWritesAnyMode | src/sftp/server/FileSystem.java:383-397 | an absent target is written at base/text/ or base/other/ by its ".txt" class, with "+Saved <path>", whatever the mode, even IDLE; the mode becomes IDLE |
| ServerFileSystem.SaveOldReplaces | src/sftp/server/FileSystem.java:434-447 | OLD replaces an existing file's contents with exactly the bytes |
| ServerFileSystem.SaveAppend | src/sftp/server/FileSystem.java:449-462 | APP appends for text names; for other names nothing is written and " -Couldn't save because file is not of text type" is returned |
| ServerFileSystem.SaveIdleWritesNothing | src/sftp/server/FileSystem.java:401-406 | IDLE with an existing file writes nothing |
| ServerFileSystem.SaveNewNeverOverwrites | src/sftp/server/FileSystem.java:408-432 | NEW never changes an existing file: it writes the first free generation, or nothing, with the duplicate-limit error, when all 10000 are taken |
| ServerFileSystem.SaveResetsMode | src/sftp/server/FileSystem.java:468-473 | every save leaves the mode IDLE, except one whose write throws, which writes nothing and replies " -Couldn't save because <exception>" |
| ServerFileSystem.StorPreviewDistinguishes | src/sftp/server/FileSystem.java:301-347 | the STOR reply is a '+' reply that determines both the mode and whether the file exists |
| ServerFileSystem.FileSystem.SetFileOperation | src/sftp/server/FileSystem.java:301-347 | the mode is always set to the given one; the reply depends only on the mode and on whether the name exists in its subtree; no file is written |
| ServerFileSystem.FListingNamesEveryEntry | src/sftp/server/FileSystem.java:46-111 | the F-mode listing of a directory names every entry in it |
| ServerFileSystem.FileSystem.ListDir | src/sftp/server/FileSystem.java:46-111 | the loops over the host's listing produce exactly the Listing specification |
| ServerFileSystem.FirstForbidden | src/sftp/server/FileSystem.java:142-151 | the first entry whose path contains "sftp.client/" or "src/", or None exactly when there is none |
| ServerFileSystem.CdirNonDirectoryKeeps | src/sftp/server/FileSystem.java:131-134 | a target that is not a directory leaves the current directory unchanged |
| ServerFileSystem.CdirRejectsIffForbidden | src/sftp/server/FileSystem.java:140-151 | the reply is the outside-the-file-system refusal exactly when some entry is forbidden; otherwise the directory is entered with "!Changed working dir to <path>"; the directory stays put on refusal only when the first entry is forbidden |
| ServerFileSystem.CdirEntersEmpty | src/sftp/server/FileSystem.java:136-138 | an empty directory is always entered |
| ServerFileSystem.CdirLeavesBase | src/sftp/server/FileSystem.java:123-124 | ".." and "../" from the base go to its parent; nothing keeps them at the base |
| ServerFileSystem.FileSystem.ChangeCurrentDir | src/sftp/server/FileSystem.java:118-156 | the loop moves the current directory as the ChangeDir specification says, including the early move before a forbidden entry; None where getParent is null |
| ServerFileSystem.RetrReportsLength | src/sftp/server/FileSystem.java:263-278 | the file is staged exactly when it exists, and the reply then parses as its length; a missing file clears the stage and the reply is not a numeral |
| ServerFileSystem.FileSystem.GetRequestedFileSize | src/sftp/server/FileSystem.java:263-278 | the stage and reply are those of Retr |
| ServerFileSystem.FileSystem.CancelSend | src/sftp/server/FileSystem.java:284-292 | the stage is cleared; "+ok, RETR aborted" exactly when something was staged |
| ServerFileSystem.FileSystem.GetFileToSend | src/sftp/server/FileSystem.java:483-487 | returns the staged file and clears it (consume once) |
| ServerFileSystem.Relocated | src/sftp/server/FileSystem.java:217 | a successful renameTo: the old entry and everything below it reappear under the new name, whatever was at the new name is replaced, and every entry outside both names is kept as it was; nothing else is in the new tree |
| ServerFileSystem.RelocatedToSelf | src/sftp/server/FileSystem.java:217 | renaming an entry to its own name leaves the tree as it was |
| ServerFileSystem.NameTobe | src/sftp/server/FileSystem.java:163-229 | NAME stages exactly an existing name; TOBE clears the stage exactly when a name was staged and the host lets the rename happen (or none was staged); after a successful rename the new name holds the old content, the old name is gone unless it lies under the new one, and a rename to the same name changes nothing |
| ServerFileSystem.FileSystem.CheckFileName | src/sftp/server/FileSystem.java:163-176 | the tree is unchanged; the stage and reply are those of Name: "+File exists" with the name staged exactly when it exists in the current directory, otherwise "-Can't find <name>" with the abort notice and a cleared stage |
| ServerFileSystem.FileSystem.CheckFileExists | src/sftp/server/FileSystem.java:184-202 | a lookup in the current directory, or for the whole system at base/text/ or base/other/ by the name's ".txt" class |
| ServerFileSystem.FileSystem.ChangeFileName | src/sftp/server/FileSystem.java:209-229 | the tree, stage and reply are those of Tobe: "-File wasn't renamed because file is not specified" when nothing is staged, "-File wasn't renamed as renaming failed" with the stage kept when the host refuses, otherwise the relocated tree, a cleared stage and "+<old path> renamed to <new path>" |
| ServerFileSystem.KillDistinguishes | src/sftp/server/FileSystem.java:236-256 | "does not exist" exactly for a missing file; a '+' reply exactly when the tree changed, and then exactly that file is gone |
| ServerFileSystem.FileSystem.DeleteFile | src/sftp/server/FileSystem.java:236-256 | the tree and reply are those of Kill |
| ServerFileSystem.AdmitBelowLimit | src/sftp/server/FileSystem.java:354-371 | an IDLE mode gets "-STOR operation was not specified" and stays IDLE; otherwise admitted ("+ok, waiting for file") exactly when the size is below 50; the mode is kept exactly when the size is below 50 or it was IDLE |
| ServerFileSystem.FileSystem.CheckFreeSpaceForSTOR | src/sftp/server/FileSystem.java:354-371 | reply and new mode as Admit; None (the null-mode exception) leaves the mode |
| ServerFileSystem.FileSystem.ProcessSTORSequence | src/sftp/server/FileSystem.java:379-477 | tree, reply and mode are those of the Save specification |
| ServerFileSystem.FileSystem.SaveNewGeneration | src/sftp/server/FileSystem.java:408-432 | the generation loop does what NewOutcome says |
| ServerFileSystem.FileSystem.Write | src/sftp/server/FileSystem.java:386-397 | tree, reply and mode are WriteOutcome's: a failing write keeps tree and mode and replies " -Couldn't save because <exception>"; otherwise the file holds exactly the bytes, the reply is "+Saved <path>" and the mode is IDLE |
| ServerFileSystem.FileSystem.Append | src/sftp/server/FileSystem.java:449-462 | tree, reply and mode are AppendOutcome's: the bytes go after the existing content, with "+Saved <path>" and mode IDLE; a failing write keeps tree and mode |
| ServerFileSystem.FileSystem.constructor | src/sftp/server/FileSystem.java:28-34 | base is user.dir/resources/<base>, the current directory starts at base, the host tree is the one given, nothing is staged for RETR or NAME, and `_currSTOR` starts null |
| SftpServer.RequestFormatTable | src/sftp/server/Server.java:88-212 | isValidRequestFormat is the arity table: the ten one-argument verbs with exactly 2 tokens, SEND/STOP/DONE with 1, STOR with 3 and NEW/OLD/APP, LIST with 2 or 3 and F/V, every other verb invalid |
| SftpServer.GateOrder | src/sftp/server/Server.java:219-357 | USER always reaches its handler; every other verb, DONE included, gets "-No User-id selected" with no user selected; a handler runs exactly for USER or a selected user whose verb is not login-gated or who is logged in |
| SftpServer.SizeRoundTrip | src/sftp/server/Server.java:393-432 | any size below 2^32 sent in decimal is parsed back as itself |
| SftpServer.AdmissionReplyDash | src/sftp/server/Server.java:405-407 | an admission reply contains '-' exactly when it is not the go-ahead, so only a refusal drops the staged name |
| SftpServer.Server.HandleTYPE | src/sftp/server/Server.java:363-380 | without login "- No Login found" and the staged name is dropped; with login the TYPE reply and nothing else |
| SftpServer.Server.HandleSIZE | src/sftp/server/Server.java:393-432 | without login "- No Login found" and the name dropped; "-Size is invalid" for a non-numeral; a null mode drops the connection; otherwise the admission reply, then, with a name staged, exactly size bytes read and saved and the stage cleared |
| SftpServer.Server.HandleSTOP | src/sftp/server/Server.java:438-451 | gated; with login the stage is cleared and the reply says whether one existed |
| SftpServer.Server.HandleSTOR | src/sftp/server/Server.java:462-480 | gated (dropping the name); with login the mode is set and the name staged for SIZE |
| SftpServer.Server.HandleSEND | src/sftp/server/Server.java:486-506 | gated; with login the staged file's bytes, then "+File Saved on Client's side", the stage consumed; otherwise "-No File selected on remote server" |
| SftpServer.Server.HandleRETR | src/sftp/server/Server.java:513-524 | gated; with login exactly the RETR stage and reply |
| SftpServer.Server.HandleKILL | src/sftp/server/Server.java:531-542 | gated; with login exactly the KILL effect and reply |
| SftpServer.Server.HandleNAME | src/sftp/server/Server.java:549-559 | gated; with login exactly the NAME stage and reply |
| SftpServer.Server.HandleTOBE | src/sftp/server/Server.java:566-576 | gated; with login exactly the TOBE effect and reply |
| SftpServer.Server.HandleCDIR | src/sftp/server/Server.java:583-596 | gated; with login the directory change and reply, or a dropped connection with nothing written where getParent is null |
| SftpServer.Server.HandleLIST | src/sftp/server/Server.java:603-625 | gated; with login exactly the listing of the named or current directory, nothing else changed |
| SftpServer.Server.HandleUSER | src/sftp/server/Server.java:667-673 | the one line written is UserReply of the credentials before the call: "+ Bypass Login", "-Invalid user-id, try again", "!<name> logged in" for an admin, else "+<name> valid, send account and password"; no file change |
| SftpServer.Server.HandleACCT | src/sftp/server/Server.java:653-661 | not login-gated; the one line written is AccountReply of the credentials before the call; no file change |
| SftpServer.Server.HandlePASS | src/sftp/server/Server.java:631-637 | not login-gated; the one line written is PassReply of the credentials before the call; no file change |
| SftpServer.Server.HandleDONE | src/sftp/server/Server.java:642-647 | the goodbye line, then the transport closed and the connection ended |
| SftpServer.Server.ProcessMessage | src/sftp/server/Server.java:219-236 | a null message ends the connection and writes nothing; an empty one gets no reply and changes nothing; any other message is split on spaces and handled as ProcessRequest says |
| SftpServer.Server.ProcessRequest | src/sftp/server/Server.java:238-347 | an invalid request gets exactly "-Invalid command" and nothing else; USER reaches its handler; without a selected user "-No User-id selected"; a login gate's reply changes nothing but the staged name (for TYPE, SIZE, STOR); otherwise the verb's handler effect, for USER, ACCT and PASS the credentials manager's reply to the old credentials with files, staged name and connection unchanged |
| SftpServer.Server.RequireUser | src/sftp/server/Server.java:244-340 | any verb but USER: with no user selected exactly "-No User-id selected" and nothing else; otherwise the login gate, then the verb's handler effect |
| SftpServer.Server.constructor | src/sftp/server/Server.java:45-87 | for a connection accepted in the "+ SFTP Service" branch (the "Out to Lunch" branch is left out): connected and running, the invariant established, channel, file system, credentials manager and local host as given, the staged STOR name carried over from the last connection, and no pending upload bytes |
| SftpServer.Server.ProcessClientRequest | src/sftp/server/Server.java:219-228 | the invariant is kept, and reading the end of the stream ends the connection; what the message read does is stated by ProcessMessage |
| SftpClient.UserCommandWithheld | src/sftp/client/Client.java:127-170 | the request is withheld ("-") exactly for a STOR of a missing file or a message that strips to "-"; a missing file unstages, a present one is staged |
| SftpClient.UserCommandFlags | src/sftp/client/Client.java:127-170 | only one verb acts, in the order STOR, RETR, SEND, SIZE; a command never arms the upload, exits or records a size; RETR with 2 tokens sets the size expectation and name; SEND with 1 token arms the byte expectation only when a name is known; coherence is kept |
| SftpClient.SizeAnnouncesLength | src/sftp/client/Client.java:161-166 | a bare SIZE with a staged file becomes "SIZE <length>", which splits into verb and numeral, and the server's parser reads back the file's length |
| SftpClient.SizeTrailingSpaceRewritten | src/sftp/client/Client.java:161-166 | a bare SIZE typed with a trailing space still splits into one piece, so the client appends " <length>" to the message as typed, giving two spaces in a row |
| SftpClient.SizeTrailingSpaceRejected | src/sftp/client/Client.java:161-166 | the server splits that request into the verb, an empty piece and the numeral, which fits no verb's format; GateReply then answers "-Invalid command" |
| SftpClient.DoubleSpaceRejected | src/sftp/server/Server.java:88-212 | two space-free words joined by two spaces split into three pieces with an empty middle one, which fail isValidRequestFormat unless the verb is STOR |
| SftpClient.ParseJavaIntRoundTrip | src/sftp/client/Client.java:197 | Integer.parseInt reads a decimal below 2^31 back as itself |
| SftpClient.ResponseExit | src/sftp/client/Client.java:181-195 | the client exits exactly on a '-' reply mentioning "Lunch" or another reply mentioning "Goodbye" |
| SftpClient.ResponseArms | src/sftp/client/Client.java:191-202 | the upload is armed exactly by a non-'-' reply with "+ok, waiting for file", no "Goodbye" and no size pending |
| SftpClient.ResponseSettles | src/sftp/client/Client.java:177-209 | a reply never creates a byte expectation or touches the staged file; one that does not exit settles a pending size |
| SftpClient.RetrReplyRecorded | src/sftp/client/Client.java:186-199 | the server's RETR reply, read with a size pending, records the file's length, or, for a missing file, cancels the receive |
| SftpClient.GoodbyeExits | src/sftp/client/Client.java:193-194 | DONE's farewell makes the client exit, whatever the host name |
| SftpClient.AdmissionArms | src/sftp/client/Client.java:200-201 | of the server's replies to SIZE, exactly the admission arms the upload |
| SftpClient.RequestKeepsIdle | src/sftp/client/Client.java:64-119 | after a request round no raw bytes are expected unless the client disconnected, and a byte expectation always has a name |
| SftpClient.RequestWrites | src/sftp/client/Client.java:88-119 | nothing is written exactly when the request is withheld; an armed upload writes the staged file's bytes and unstages it |
| SftpClient.ArmedWithoutFileStaysArmed | src/sftp/client/Client.java:105-110 | an upload armed with nothing staged throws before clearing the flag: the client disconnects, stays armed, and throws the same way after reconnecting |
| SftpClient.Client.ProcessUserCommand | src/sftp/client/Client.java:127-170 | returns the request and sets the fields exactly as UserCommand says |
| SftpClient.Client.ProcessStringResponse | src/sftp/client/Client.java:177-209 | sets the fields as StringResponse says, or disconnects with the fields unchanged where the reply is empty or a pending size does not parse |
| SftpClient.Client.GetServerResponse | src/sftp/client/Client.java:64-83 | the expected file, if any, is saved and its expectation cleared (a negative size throws first), then one reply is processed, as Receive says |
| SftpClient.Client.RequestServer | src/sftp/client/Client.java:88-119 | the new state is Request's and exactly Outgoing's bytes are written, so "-" is never sent and an armed upload sends the staged file once |
| SftpClient.Client.constructor | src/sftp/client/Client.java:213-220 | main's initial values once connected: connected, nothing anticipated, no file named, a receive size of 0 |
| SftpClient.Client.Disconnect | src/sftp/client/Client.java:250-253 | the catch-all handler: the socket is closed and the client is marked disconnected |

## Left out

- Socket lifecycle and loops are not modelled: `Server.main`, `acceptClient`, the client's `main`, `connectToServer` and `setupIO`. They are accept and reconnect loops. One `Server` object is one connection, and the staged STOR name that outlives a connection is handed to its constructor.
- The "Out to Lunch" greeting is not modelled. The client's handling of any reply mentioning "Lunch" is.
- The busy-wait in `readInputStreamAsBytes`, the client's 10-second read timeout and `ready()` timing are not modelled. Readiness is the ready prefix of the input.
- Character encodings are not modelled: a sent line is the low bytes of its characters.
- Sftp.Channel.ReadBytes, ReadMessage: lines and raw bytes are two independent input queues, while the Java code reads both from one socket stream through one reader. Payload bytes beyond the announced size are therefore not seen by the next line read, and bytes of 0x80 and above arrive unchanged instead of being decoded by the default charset.
- Logging and console output are not modelled.
- The host's files are the `tree`: which entries exist, which are directories, and what the files hold. Listing order, V-mode modification dates, rename, delete and write outcomes, and exception texts are facts of the `Host` parameter. An F/V listing uses the host's text.
- ServerFileSystem.Exists, Normalize: every lookup first resolves "." and ".." textually and then looks the result up in the tree. The operating system resolves a path one component at a time, so `<dir>/m/../f` fails there when `m` is missing or is a file, while the model finds `f`. This reaches NAME, RETR, KILL, LIST, CDIR and the STOR target. Symbolic links are not modelled. RETR of a directory reports "0" (the `Size` of a `Dir`), where `File.length()` of a directory is unspecified and typically the directory's block size.
- CheckFileExists: answers by the textual resolution that `Exists` uses, so it finds a name whose ".." follows a missing or non-directory component, where `Files.exists` answers false.
- Reading the CSV file for `loadUsers` is not modelled. `LoadUsers` takes the already parsed rows; `ParseTable` states how rows parse.
- ParseJavaInt and SftpServer.ParseUnsignedInt: accept ASCII digits only, while Java also accepts other Unicode decimal digits.
- Client paths are one flat directory of names. Sub-directories, "." and ".." in client file names are not modelled.
- SftpClient.GetServerResponse: `Files.write` is assumed to succeed for the received file. An I/O failure there, which the method catches, is not modelled.
- SftpServer.Server.ProcessClientRequest: states only that reading the end of the stream ends the connection. The handling of the message read is stated by ProcessMessage.
- SftpServer.Server.ProcessRequest, HandleUSER, HandleACCT, HandlePASS: state the reply line, as a function of the credentials before the request, and unchanged files and session. How USER, ACCT and PASS change the selected user, the current account and its login flag is stated by CredentialsManager's methods and is not carried up into these contracts.
