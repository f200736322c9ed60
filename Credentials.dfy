/**
 * The login sub-state machine of the server (package sftp.server.credentials):
 * accounts with a per-account logged-in flag, users owning accounts, the
 * manager that selects a user, then an account, then checks a password, and
 * the parser of one row of the users table.
 */
module Credentials {
  import opened Wrappers
  import opened Text

  /** An account of a user; a root account has no password. */
  class Account {
    const accountName: string
    const isRoot: bool
    /** The stored password; the one-argument constructor stores none, and getPassword hides it. */
    const password: string
    var isLoggedIn: bool

    /** An account that needs a password. */
    constructor (accountName: string, password: string)
      ensures this.accountName == accountName && !isRoot
      ensures GetPassword() == Some(password)
      ensures !isLoggedIn
    {
      this.accountName := accountName;
      this.password := password;
      isRoot := false;
      isLoggedIn := false;
    }

    /** A root account: logged in as soon as it is selected, no password. */
    constructor Root(rootName: string)
      ensures accountName == rootName && isRoot
      ensures GetPassword() == None
      ensures !isLoggedIn
    {
      accountName := rootName;
      password := "";
      isRoot := true;
      isLoggedIn := false;
    }

    /** getPassword: null for a root account, the stored password otherwise. */
    function GetPassword(): (r: Option<string>)
      ensures isRoot ==> r == None
      ensures !isRoot ==> r == Some(password)
    {
      if !isRoot then Some(password) else None
    }

    method SetIsLoggedIn(b: bool)
      modifies this`isLoggedIn
      ensures isLoggedIn == b
    {
      isLoggedIn := b;
    }
  }

  /** A user of the server; an admin user logs in without account or password. */
  class User {
    const userName: string
    const isAdmin: bool
    var accounts: seq<Account>

    constructor (userName: string, isAdmin: bool)
      ensures this.userName == userName && this.isAdmin == isAdmin
      ensures accounts == []
    {
      this.userName := userName;
      this.isAdmin := isAdmin;
      accounts := [];
    }

    method SetAccounts(l: seq<Account>)
      modifies this`accounts
      ensures accounts == l
    {
      accounts := l;
    }
  }

  // ---- one row of the users table ----

  /** An account field of a row; `password == None` marks the root account. */
  datatype AccountRow = AccountRow(name: string, password: Option<string>)

  /** A parsed row: the user name, the admin mark and the accounts in row order. */
  datatype UserRow = UserRow(name: string, isAdmin: bool, accounts: seq<AccountRow>)

  /**
   * One comma field split on '.': "root..." is the root account, otherwise
   * `name.password`; None where the Java code indexes past the pieces.
   */
  function ParseAccountField(field: string): (r: Option<AccountRow>)
    ensures r.Some? && r.value.password.None? ==> r.value.name == "root"
    ensures r.Some? && r.value.password.Some? ==> r.value.name != "root"
  {
    var credentials := JavaSplit(field, '.');
    if |credentials| == 0 then None
    else if credentials[0] == "root" then Some(AccountRow("root", None))
    else if |credentials| < 2 then None
    else Some(AccountRow(credentials[0], Some(credentials[1])))
  }

  function ParseAccountFields(fields: seq<string>): (r: Option<seq<AccountRow>>)
    ensures r.Some? ==> |r.value| == |fields|
    ensures r.Some? ==> forall i :: 0 <= i < |fields| ==> ParseAccountField(fields[i]) == Some(r.value[i])
    ensures r.None? ==> exists i :: 0 <= i < |fields| && ParseAccountField(fields[i]).None?
    decreases |fields|
  {
    if |fields| == 0 then Some([])
    else
      match (ParseAccountField(fields[0]), ParseAccountFields(fields[1..]))
      case (Some(a), Some(rest)) => Some([a] + rest)
      case (None, _) => None
      case (_, None) => None
  }

  /**
   * The body of the loadUsers loop for one row: an "admin" first field is an
   * admin user with no accounts, any other first field a user with one account
   * per later field.  None where the Java code would throw.
   */
  function ParseRow(row: string): (r: Option<UserRow>)
    ensures r.Some? ==> (r.value.isAdmin <==> r.value.name == "admin")
    ensures r.Some? && r.value.isAdmin ==> r.value.accounts == []
    ensures r.Some? && !r.value.isAdmin ==> |r.value.accounts| == |JavaSplit(row, ',')| - 1
    ensures r.Some? ==> |JavaSplit(row, ',')| > 0 && r.value.name == JavaSplit(row, ',')[0]
  {
    var data := JavaSplit(row, ',');
    if |data| == 0 then None
    else if data[0] == "admin" then Some(UserRow("admin", true, []))
    else
      match ParseAccountFields(data[1..])
      case Some(accounts) => Some(UserRow(data[0], false, accounts))
      case None => None
  }

  /** A field or name without the separators of the table. */
  predicate PlainField(s: string)
  {
    ',' !in s && '.' !in s
  }

  /** The account fields the table format can express. */
  predicate WritableAccount(a: AccountRow)
  {
    match a.password
    case None => a.name == "root"
    case Some(p) => a.name != "root" && a.name != "" && p != "" && PlainField(a.name) && PlainField(p)
  }

  /** The rows the table format can express. */
  predicate WritableRow(u: UserRow)
  {
    && ',' !in u.name
    && (u.isAdmin <==> u.name == "admin")
    && (u.isAdmin ==> u.accounts == [])
    && forall i :: 0 <= i < |u.accounts| ==> WritableAccount(u.accounts[i])
  }

  /** The way a row is written in the users table. */
  function FormatAccount(a: AccountRow): string
  {
    match a.password
    case None => "root"
    case Some(p) => a.name + "." + p
  }

  function FormatRow(u: UserRow): string
  {
    Join([u.name] + seq(|u.accounts|, i requires 0 <= i < |u.accounts| => FormatAccount(u.accounts[i])), ',')
  }

  /** String.split undoes Join when no piece holds the separator and the last one is not empty. */
  lemma JavaSplitJoin(parts: seq<string>, c: char)
    requires |parts| >= 1
    requires forall i :: 0 <= i < |parts| ==> c !in parts[i]
    requires |parts| > 1 ==> parts[|parts| - 1] != ""
    ensures JavaSplit(Join(parts, c), c) == parts
  {
    var s := Join(parts, c);
    SplitAllJoin(parts, c);
  }

  lemma AccountRoundTrip(a: AccountRow)
    requires WritableAccount(a)
    ensures ParseAccountField(FormatAccount(a)) == Some(a)
  {
    match a.password
    case None =>
      assert '.' !in "root";
    case Some(p) =>
      JavaSplitJoin([a.name, p], '.');
      assert Join([a.name, p], '.') == a.name + "." + p;
  }

  /** Reading back a written row gives the row again. */
  lemma {:induction false} RowRoundTrip(u: UserRow)
    requires WritableRow(u)
    ensures ParseRow(FormatRow(u)) == Some(u)
  {
    var fields := seq(|u.accounts|, i requires 0 <= i < |u.accounts| => FormatAccount(u.accounts[i]));
    var parts := [u.name] + fields;
    forall i | 0 <= i < |parts| ensures ',' !in parts[i] {
      if i > 0 {
        assert parts[i] == FormatAccount(u.accounts[i - 1]);
        assert WritableAccount(u.accounts[i - 1]);
      }
    }
    if |parts| > 1 {
      assert parts[|parts| - 1] == FormatAccount(u.accounts[|u.accounts| - 1]);
      assert WritableAccount(u.accounts[|u.accounts| - 1]);
    }
    JavaSplitJoin(parts, ',');
    assert JavaSplit(FormatRow(u), ',') == parts;
    if !u.isAdmin {
      assert parts[1..] == fields;
      forall i | 0 <= i < |fields| ensures ParseAccountField(fields[i]) == Some(u.accounts[i]) {
        AccountRoundTrip(u.accounts[i]);
      }
      ParseFieldsAll(fields, u.accounts);
    }
  }

  lemma {:induction false} ParseFieldsAll(fields: seq<string>, accounts: seq<AccountRow>)
    requires |fields| == |accounts|
    requires forall i :: 0 <= i < |fields| ==> ParseAccountField(fields[i]) == Some(accounts[i])
    ensures ParseAccountFields(fields) == Some(accounts)
    decreases |fields|
  {
    if |fields| > 0 {
      ParseFieldsAll(fields[1..], accounts[1..]);
      assert [accounts[0]] + accounts[1..] == accounts;
    }
  }

  /**
   * The rows of the whole table; None when some row would make the Java loop
   * throw, which ends the server.
   */
  function ParseTable(rows: seq<string>): (r: Option<seq<UserRow>>)
    ensures r.Some? <==> forall i :: 0 <= i < |rows| ==> ParseRow(rows[i]).Some?
    ensures r.Some? ==> |r.value| == |rows| && forall i :: 0 <= i < |rows| ==> ParseRow(rows[i]) == Some(r.value[i])
    decreases |rows|
  {
    if |rows| == 0 then Some([])
    else
      match (ParseRow(rows[0]), ParseTable(rows[1..]))
      case (Some(u), Some(rest)) =>
        assert forall i :: 1 <= i < |rows| ==> rows[i] == rows[1..][i - 1];
        Some([u] + rest)
      case (None, _) => None
      case (_, None) =>
        assert forall i :: 1 <= i < |rows| ==> rows[i] == rows[1..][i - 1];
        None
  }

  /** A fresh account object holds exactly what its row says and is not logged in. */
  ghost predicate AccountMirrors(a: Account, r: AccountRow)
    reads a
  {
    && a.accountName == r.name
    && a.isRoot == r.password.None?
    && (r.password.Some? ==> a.GetPassword() == r.password)
    && !a.isLoggedIn
  }

  ghost predicate UserMirrors(u: User, r: UserRow)
    reads u, u.accounts
  {
    && u.userName == r.name
    && u.isAdmin == r.isAdmin
    && |u.accounts| == |r.accounts|
    && forall j :: 0 <= j < |r.accounts| ==> AccountMirrors(u.accounts[j], r.accounts[j])
  }

  /** The object-building half of the loadUsers loop body for one parsed row. */
  method BuildUser(row: UserRow) returns (user: User)
    requires row.isAdmin ==> row.accounts == []
    ensures fresh(user) && UserMirrors(user, row)
    ensures forall j :: 0 <= j < |user.accounts| ==> fresh(user.accounts[j])
  {
    if row.isAdmin {
      user := new User(row.name, true);
    } else {
      user := new User(row.name, false);
      var accountList: seq<Account> := [];
      var i := 0;
      while i < |row.accounts|
        invariant 0 <= i <= |row.accounts| && |accountList| == i
        invariant forall j :: 0 <= j < i ==> fresh(accountList[j]) && AccountMirrors(accountList[j], row.accounts[j])
        invariant fresh(user) && user.userName == row.name && !user.isAdmin
      {
        var field := row.accounts[i];
        var account: Account;
        if field.password.None? {
          account := new Account.Root(field.name);
        } else {
          account := new Account(field.name, field.password.value);
        }
        accountList := accountList + [account];
        i := i + 1;
      }
      user.SetAccounts(accountList);
    }
  }

  // ---- the manager ----

  /** The index of the first user with this name. */
  function FindUser(users: seq<User>, name: string): (r: Option<nat>)
    ensures r.Some? ==> r.value < |users| && users[r.value].userName == name
    ensures r.Some? ==> forall j :: 0 <= j < r.value ==> users[j].userName != name
    ensures r.None? ==> forall j :: 0 <= j < |users| ==> users[j].userName != name
    decreases |users|
  {
    if |users| == 0 then None
    else if users[0].userName == name then Some(0)
    else match FindUser(users[1..], name)
      case Some(i) => Some(i + 1)
      case None => None
  }

  /** The index of the first account with this name. */
  function FindAccount(accounts: seq<Account>, name: string): (r: Option<nat>)
    ensures r.Some? ==> r.value < |accounts| && accounts[r.value].accountName == name
    ensures r.Some? ==> forall j :: 0 <= j < r.value ==> accounts[j].accountName != name
    ensures r.None? ==> forall j :: 0 <= j < |accounts| ==> accounts[j].accountName != name
    decreases |accounts|
  {
    if |accounts| == 0 then None
    else if accounts[0].accountName == name then Some(0)
    else match FindAccount(accounts[1..], name)
      case Some(i) => Some(i + 1)
      case None => None
  }

  /** The users, the current selection and the server-wide bypass switch. */
  class CredentialsManager {
    var users: seq<User>
    var currentUser: User?
    var currentAccount: Account?
    var isBypass: bool

    /**
     * The selection invariant: the current account is one of the current
     * user's accounts, an admin user has none, and a current root account is
     * logged in (so its missing password is never compared).
     */
    ghost predicate Valid()
      reads this, users, currentUser, currentAccount
    {
      && (forall i :: 0 <= i < |users| ==> users[i].isAdmin ==> users[i].accounts == [])
      && (currentUser != null ==> currentUser in users)
      && (currentAccount != null ==> currentUser != null && currentAccount in currentUser.accounts)
      && (currentUser != null && currentUser.isAdmin ==> currentAccount == null)
      && (currentAccount != null && currentAccount.isRoot ==> currentAccount.isLoggedIn)
    }

    /** The accounts of the current user, the only ones ACCT may touch. */
    function Selectable(): seq<Account>
      reads this, currentUser
    {
      if currentUser == null then [] else currentUser.accounts
    }

    constructor ()
      ensures Valid() && users == [] && currentUser == null && currentAccount == null && !isBypass
    {
      users := [];
      currentUser := null;
      currentAccount := null;
      isBypass := false;
    }

    method SetIsBypass(b: bool)
      requires Valid()
      modifies this`isBypass
      ensures Valid() && isBypass == b
    {
      isBypass := b;
    }

    /** loadUsers over the parsed table; done once, before anyone is selected. */
    method LoadUsers(table: seq<UserRow>)
      requires Valid() && currentUser == null
      requires forall i :: 0 <= i < |table| ==> table[i].isAdmin ==> table[i].accounts == []
      modifies this`users
      ensures Valid() && |users| == |table|
      ensures forall i :: 0 <= i < |table| ==> fresh(users[i]) && UserMirrors(users[i], table[i])
    {
      var loaded: seq<User> := [];
      var i := 0;
      while i < |table|
        invariant 0 <= i <= |table| && |loaded| == i
        invariant forall j :: 0 <= j < i ==> fresh(loaded[j]) && UserMirrors(loaded[j], table[j])
      {
        var user := BuildUser(table[i]);
        loaded := loaded + [user];
        i := i + 1;
      }
      users := loaded;
    }

    /** isCurrentUserSelected. */
    predicate IsCurrentUserSelected()
      reads this
    {
      isBypass || currentUser != null
    }

    /** isAUserLoggedIn; the Java code dereferences the current user, so one must be selected. */
    predicate IsAUserLoggedIn()
      requires IsCurrentUserSelected()
      reads this, currentUser, currentAccount
    {
      isBypass || currentUser.isAdmin || (currentAccount != null && currentAccount.isLoggedIn)
    }

    /** The line USER <name> answers in this state. */
    function UserReply(userName: string): string
      reads this
    {
      if isBypass then "+ Bypass Login"
      else match FindUser(users, userName)
        case None => "-Invalid user-id, try again"
        case Some(i) =>
          if users[i].isAdmin then "!" + userName + " logged in"
          else "+" + userName + " valid, send account and password"
    }

    /** The line ACCT <name> answers in this state. */
    function AccountReply(accountName: string): string
      requires IsCurrentUserSelected()
      reads this, currentUser
    {
      if isBypass then "+ Bypass Login"
      else if currentUser.userName == "admin" then "-Invalid account, try again"
      else match FindAccount(currentUser.accounts, accountName)
        case None => "-Invalid account, try again"
        case Some(i) =>
          if currentUser.accounts[i].isRoot then "! Account valid, logged-in"
          else "+Account valid, send password"
    }

    /** The line PASS <password> answers in this state. */
    function PassReply(password: string): string
      reads this, currentAccount
    {
      if isBypass then "+ Bypass Login"
      else if currentAccount == null || currentAccount.isLoggedIn then "+Send account"
      else if currentAccount.GetPassword() == Some(password) then "! Logged in"
      else "-Wrong password, try again"
    }

    /** setCurrentUser: USER <name>. */
    method SetCurrentUser(userName: string) returns (response: string)
      requires Valid()
      modifies this`currentUser, this`currentAccount, currentAccount
      ensures Valid() && users == old(users) && isBypass == old(isBypass)
      ensures response == old(UserReply(userName))
      ensures isBypass || FindUser(users, userName).None? ==>
        && response == (if isBypass then "+ Bypass Login" else "-Invalid user-id, try again")
        && currentUser == old(currentUser) && currentAccount == old(currentAccount)
        && (currentAccount != null ==> currentAccount.isLoggedIn == old(currentAccount.isLoggedIn))
      ensures !isBypass && FindUser(users, userName).Some? ==>
        var u := users[FindUser(users, userName).value];
        && currentUser == u && currentAccount == null
        && (u.isAdmin ==> response == "!" + userName + " logged in")
        && (u.isAdmin && old(currentAccount) != null ==> old(currentAccount).isLoggedIn == old(currentAccount.isLoggedIn))
        && (!u.isAdmin ==> response == "+" + userName + " valid, send account and password")
        && (!u.isAdmin && old(currentAccount) != null ==> !old(currentAccount).isLoggedIn)
    {
      response := "-Invalid user-id, try again";
      if isBypass {
        response := "+ Bypass Login";
      } else if |users| != 0 {
        var i := 0;
        while i < |users|
          invariant 0 <= i <= |users|
          invariant forall j :: 0 <= j < i ==> users[j].userName != userName
          invariant currentUser == old(currentUser) && currentAccount == old(currentAccount)
          invariant response == "-Invalid user-id, try again"
        {
          var user := users[i];
          if user.userName == userName {
            currentUser := user;
            if user.isAdmin {
              currentAccount := null;
              response := "!" + userName + " logged in";
            } else {
              if currentAccount != null {
                currentAccount.SetIsLoggedIn(false);
                currentAccount := null;
              }
              response := "+" + userName + " valid, send account and password";
            }
            break;
          }
          i := i + 1;
        }
      }
    }

    /** setCurrentAccount: ACCT <name>, only reached once a user is selected. */
    method SetCurrentAccount(accountName: string) returns (response: string)
      requires Valid() && IsCurrentUserSelected()
      modifies this`currentAccount, Selectable()
      ensures Valid() && users == old(users) && currentUser == old(currentUser) && isBypass == old(isBypass)
      ensures response == old(AccountReply(accountName))
      ensures
        var found := if isBypass || currentUser.userName == "admin" then None
                     else FindAccount(currentUser.accounts, accountName);
        && (found.None? ==>
              && response == (if isBypass then "+ Bypass Login" else "-Invalid account, try again")
              && currentAccount == old(currentAccount)
              && forall a :: a in Selectable() ==> a.isLoggedIn == old(a.isLoggedIn))
        && (found.Some? ==>
              var a := currentUser.accounts[found.value];
              && currentAccount == a
              && a.isLoggedIn == a.isRoot
              && response == (if a.isRoot then "! Account valid, logged-in" else "+Account valid, send password")
              && forall b :: b in Selectable() && b != a ==> b.isLoggedIn == old(b.isLoggedIn))
    {
      response := "-Invalid account, try again";
      if isBypass {
        response := "+ Bypass Login";
      } else if currentUser.userName != "admin" {
        var accounts := currentUser.accounts;
        var i := 0;
        while i < |accounts|
          invariant 0 <= i <= |accounts|
          invariant forall j :: 0 <= j < i ==> accounts[j].accountName != accountName
          invariant currentAccount == old(currentAccount)
          invariant response == "-Invalid account, try again"
        {
          var acct := accounts[i];
          if acct.accountName == accountName {
            if acct.isRoot {
              currentAccount := acct;
              currentAccount.SetIsLoggedIn(true);
              response := "! Account valid, logged-in";
            } else {
              currentAccount := acct;
              currentAccount.SetIsLoggedIn(false);
              response := "+Account valid, send password";
            }
            break;
          }
          i := i + 1;
        }
      }
    }

    /** attemptLogin: PASS <password>. */
    method AttemptLogin(password: string) returns (response: string)
      requires Valid()
      modifies currentAccount
      ensures Valid() && currentAccount == old(currentAccount)
      ensures response == old(PassReply(password))
      ensures isBypass ==> response == "+ Bypass Login"
      ensures !isBypass && (currentAccount == null || old(currentAccount.isLoggedIn)) ==> response == "+Send account"
      ensures !isBypass && currentAccount != null && !old(currentAccount.isLoggedIn) ==>
        && !currentAccount.isRoot
        && (currentAccount.password == password ==> response == "! Logged in")
        && (currentAccount.password != password ==> response == "-Wrong password, try again")
      ensures currentAccount != null ==>
        currentAccount.isLoggedIn == (old(currentAccount.isLoggedIn)
          || (!isBypass && currentAccount.GetPassword() == Some(password)))
    {
      response := "-Wrong password, try again";
      if isBypass {
        response := "+ Bypass Login";
      } else if currentAccount == null || currentAccount.isLoggedIn {
        response := "+Send account";
      } else {
        // a root account is always logged in, so this one has a password
        assert !currentAccount.isRoot;
        if currentAccount.GetPassword() == Some(password) {
          currentAccount.SetIsLoggedIn(true);
          response := "! Logged in";
        }
      }
    }
  }
}
