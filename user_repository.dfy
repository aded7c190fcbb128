/** Queries over the user table, and the `String.trim` that the username
    lookup applies first. */
module UserRepository {
  import opened Common
  import opened Entities

  /** `String.trim` removes every character up to and including U+0020. */
  predicate IsTrimmed(c: char)
  {
    c <= ' '
  }

  predicate AllTrimmed(s: string)
  {
    forall k :: 0 <= k < |s| ==> IsTrimmed(s[k])
  }

  /** Number of trimmed characters at the start of `s`. */
  function Lead(s: string): (n: nat)
    ensures n <= |s|
    ensures forall k :: 0 <= k < n ==> IsTrimmed(s[k])
    ensures n < |s| ==> !IsTrimmed(s[n])
  {
    if s == [] || !IsTrimmed(s[0]) then 0 else 1 + Lead(s[1..])
  }

  /** Number of trimmed characters at the end of `s`. */
  function Trail(s: string): (n: nat)
    ensures n <= |s|
    ensures forall k :: |s| - n <= k < |s| ==> IsTrimmed(s[k])
    ensures n < |s| ==> !IsTrimmed(s[|s| - 1 - n])
  {
    if s == [] || !IsTrimmed(s[|s| - 1]) then 0 else 1 + Trail(s[..|s| - 1])
  }

  /** `String.trim()`: the slice between the leading and the trailing run
      of trimmed characters. */
  function Trim(s: string): (r: string)
    ensures |r| <= |s|
    ensures r == [] || (!IsTrimmed(r[0]) && !IsTrimmed(r[|r| - 1]))
  {
    var i := Lead(s);
    var j := |s| - Trail(s[i..]);
    assert i < j ==> s[j - 1] == s[i..][|s[i..]| - 1 - Trail(s[i..])];
    s[i..j]
  }

  /** What trim keeps is one slice `s[i..j]`; everything before `i` and
      from `j` on is a trimmed character, and a non-empty slice starts and
      ends with a kept one. */
  lemma {:induction false} TrimIsSlice(s: string)
    ensures var i, j := Lead(s), |s| - Trail(s[Lead(s)..]);
            && i <= j <= |s| && Trim(s) == s[i..j]
            && (forall k :: 0 <= k < i ==> IsTrimmed(s[k]))
            && (forall k :: j <= k < |s| ==> IsTrimmed(s[k]))
            && (i < j ==> !IsTrimmed(s[i]) && !IsTrimmed(s[j - 1]))
  {
    var i := Lead(s);
    var t := s[i..];
    var j := |s| - Trail(t);
    forall k | j <= k < |s| ensures IsTrimmed(s[k]) {
      assert s[k] == t[k - i];
    }
    if i < j {
      assert s[j - 1] == t[|t| - 1 - Trail(t)];
    }
  }

  /** Trim is determined by those properties: any slice bounded by runs of
      trimmed characters, whose ends (if any) are kept characters, is the
      trimmed string. */
  lemma {:induction false} TrimUnique(s: string, i: nat, j: nat)
    requires i <= j <= |s|
    requires forall k :: 0 <= k < i ==> IsTrimmed(s[k])
    requires forall k :: j <= k < |s| ==> IsTrimmed(s[k])
    requires i < j ==> !IsTrimmed(s[i]) && !IsTrimmed(s[j - 1])
    ensures Trim(s) == s[i..j]
  {
    TrimIsSlice(s);
    var i0, j0 := Lead(s), |s| - Trail(s[Lead(s)..]);
    if i < j {
      assert i0 == i;
      assert s[i0..][|s| - i0 - 1 - Trail(s[i0..])] == s[j0 - 1];
      assert j0 == j;
    } else {
      assert forall k :: 0 <= k < |s| ==> IsTrimmed(s[k]);
      assert i0 == |s|;
    }
  }

  /** `username == null || username.trim().isEmpty()`: null, or made only
      of characters that trim removes. */
  function IsBlank(s: Option<string>): (b: bool)
    ensures b <==> s.None? || AllTrimmed(s.value)
  {
    if s.None? then true
    else
      TrimEmptyIffAllTrimmed(s.value);
      Trim(s.value) == []
  }

  /** A string trims to nothing exactly when every character of it is one
      that trim removes. */
  lemma {:induction false} TrimEmptyIffAllTrimmed(s: string)
    ensures Trim(s) == [] <==> AllTrimmed(s)
  {
    TrimIsSlice(s);
    if AllTrimmed(s) {
      TrimUnique(s, 0, 0);
    }
  }

  /** Index facts about a string `s` placed at offset `off` inside `u`
      between runs of trimmed characters. */
  lemma {:induction false} EmbeddedBounds(u: string, s: string, off: nat, i: nat, j: nat)
    requires off + |s| <= |u| && forall k :: 0 <= k < |s| ==> u[off + k] == s[k]
    requires forall k :: 0 <= k < off ==> IsTrimmed(u[k])
    requires forall k :: off + |s| <= k < |u| ==> IsTrimmed(u[k])
    requires i <= j <= |s|
    requires forall k :: 0 <= k < i ==> IsTrimmed(s[k])
    requires forall k :: j <= k < |s| ==> IsTrimmed(s[k])
    ensures forall k :: 0 <= k < off + i ==> IsTrimmed(u[k])
    ensures forall k :: off + j <= k < |u| ==> IsTrimmed(u[k])
    ensures u[off + i..off + j] == s[i..j]
  {
    forall k | 0 <= k < off + i ensures IsTrimmed(u[k]) {
      if k >= off { assert u[off + (k - off)] == s[k - off]; }
    }
    forall k | off + j <= k < |u| ensures IsTrimmed(u[k]) {
      if k < off + |s| { assert u[off + (k - off)] == s[k - off]; }
    }
    var a, b := u[off + i..off + j], s[i..j];
    forall k | 0 <= k < |a| ensures a[k] == b[k] {
      assert a[k] == u[off + (i + k)] && b[k] == s[i + k];
    }
  }

  lemma {:induction false} TrimOfEmbeddedSlice(u: string, s: string, off: nat, i: nat, j: nat)
    requires off + |s| <= |u| && forall k :: 0 <= k < |s| ==> u[off + k] == s[k]
    requires forall k :: 0 <= k < off ==> IsTrimmed(u[k])
    requires forall k :: off + |s| <= k < |u| ==> IsTrimmed(u[k])
    requires i <= j <= |s|
    requires forall k :: 0 <= k < i ==> IsTrimmed(s[k])
    requires forall k :: j <= k < |s| ==> IsTrimmed(s[k])
    requires i < j ==> !IsTrimmed(s[i]) && !IsTrimmed(s[j - 1])
    ensures Trim(u) == s[i..j]
  {
    EmbeddedBounds(u, s, off, i, j);
    assert i < j ==> u[off + i] == s[i] && u[off + j - 1] == s[j - 1];
    TrimUnique(u, off + i, off + j);
  }

  /** A string surrounded by trimmed characters trims like the string. */
  lemma {:induction false} TrimOfEmbedded(u: string, s: string, off: nat)
    requires off + |s| <= |u| && forall k :: 0 <= k < |s| ==> u[off + k] == s[k]
    requires forall k :: 0 <= k < off ==> IsTrimmed(u[k])
    requires forall k :: off + |s| <= k < |u| ==> IsTrimmed(u[k])
    ensures Trim(u) == Trim(s)
  {
    TrimIsSlice(s);
    var i, j := Lead(s), |s| - Trail(s[Lead(s)..]);
    TrimOfEmbeddedSlice(u, s, off, i, j);
  }

  /** Trimmed characters around a string do not change what it trims to. */
  lemma {:induction false} TrimIgnoresPadding(p: string, s: string, q: string)
    requires AllTrimmed(p) && AllTrimmed(q)
    ensures Trim(p + s + q) == Trim(s)
  {
    var u := p + s + q;
    assert forall k :: 0 <= k < |s| ==> u[|p| + k] == s[k];
    assert forall k :: 0 <= k < |p| ==> u[k] == p[k];
    assert forall k :: |p| + |s| <= k < |u| ==> u[k] == q[k - |p| - |s|];
    TrimOfEmbedded(u, s, |p|);
  }

  /** Trimming twice is trimming once. */
  lemma {:induction false} TrimIdempotent(s: string)
    ensures Trim(Trim(s)) == Trim(s)
  {
    var t := Trim(s);
    TrimUnique(t, 0, |t|);
    assert t[0..|t|] == t;
  }

  /** The username column, row by row. */
  function Usernames(users: seq<User>): (r: seq<string>)
    ensures |r| == |users| && forall k :: 0 <= k < |users| ==> r[k] == users[k].username
  {
    seq(|users|, k requires 0 <= k < |users| => users[k].username)
  }

  /** The role column, row by row. */
  function Roles(users: seq<User>): (r: seq<UserRole>)
    ensures |r| == |users| && forall k :: 0 <= k < |users| ==> r[k] == users[k].role
  {
    seq(|users|, k requires 0 <= k < |users| => users[k].role)
  }

  /** `count("username", username)`: how many rows hold exactly this
      username. */
  function CountByUsername(users: seq<User>, username: string): (n: nat)
    ensures n == multiset(Usernames(users))[username]
    ensures n <= |users|
    ensures n > 0 <==> exists k :: 0 <= k < |users| && users[k].username == username
  {
    if users == [] then 0
    else
      assert Usernames(users) == [users[0].username] + Usernames(users[1..]);
      (if users[0].username == username then 1 else 0) + CountByUsername(users[1..], username)
  }

  /** `existsByUsername`: some stored user has exactly this username. */
  function ExistsByUsername(users: seq<User>, username: string): (b: bool)
    ensures b <==> exists u :: u in users && u.username == username
  {
    CountByUsername(users, username) > 0
  }

  /** `count("role", role)`: how many rows hold this role. */
  function CountByRole(users: seq<User>, role: UserRole): (n: nat)
    ensures n == multiset(Roles(users))[role]
    ensures n <= |users|
    ensures n > 0 <==> exists k :: 0 <= k < |users| && users[k].role == role
  {
    if users == [] then 0
    else
      assert Roles(users) == [users[0].role] + Roles(users[1..]);
      (if users[0].role == role then 1 else 0) + CountByRole(users[1..], role)
  }

  /** `existsByRole`: some stored user holds this role. */
  function ExistsByRole(users: seq<User>, role: UserRole): (b: bool)
    ensures b <==> exists u :: u in users && u.role == role
  {
    CountByRole(users, role) > 0
  }

  /** Position of the first user, in table order, whose username is
      exactly `username`. */
  function IndexOfUsername(users: seq<User>, username: string): (r: Option<nat>)
    ensures r.None? <==> forall k :: 0 <= k < |users| ==> users[k].username != username
    ensures r.Some? ==> r.value < |users| && users[r.value].username == username
    ensures r.Some? ==> forall j :: 0 <= j < r.value ==> users[j].username != username
  {
    if users == [] then None
    else if users[0].username == username then Some(0)
    else match IndexOfUsername(users[1..], username)
      case None => None
      case Some(k) => Some(k + 1)
  }

  /** `findByUsername`: nothing for a null or blank name, otherwise the
      first user whose username is the trimmed name. */
  function FindByUsername(users: seq<User>, username: Option<string>): (r: Option<User>)
    ensures IsBlank(username) ==> r.None?
    ensures !IsBlank(username) ==>
              (r.None? <==> forall k :: 0 <= k < |users| ==> users[k].username != Trim(username.value))
    ensures r.Some? ==> r.value in users && r.value.username == Trim(username.value)
  {
    if IsBlank(username) then None
    else match IndexOfUsername(users, Trim(username.value))
      case None => None
      case Some(k) => Some(users[k])
  }

  /** Leading and trailing whitespace in the presented name is ignored. */
  lemma {:induction false} FindByUsernameIgnoresPadding(users: seq<User>, p: string, s: string, q: string)
    requires AllTrimmed(p) && AllTrimmed(q)
    ensures FindByUsername(users, Some(p + s + q)) == FindByUsername(users, Some(s))
  {
    TrimIgnoresPadding(p, s, q);
  }

  /** `findUserByUsername`: `findByUsername(...).orElse(null)`, with null as
      `None`. */
  function FindUserByUsername(users: seq<User>, username: Option<string>): (r: Option<User>)
    ensures r.None? <==> FindByUsername(users, username).None?
    ensures r.Some? ==> r.value == FindByUsername(users, username).value
  {
    match FindByUsername(users, username)
    case Some(u) => Some(u)
    case None => None
  }
}
