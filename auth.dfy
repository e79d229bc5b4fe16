/** The `verifyJWT` middleware and the `verifyAdmin` role test. */
module Auth {
  import opened Domain

  /** Outcome of `verifyJWT`: proceed with the decoded email, or reject. */
  datatype Gate = Admit(email: string) | Deny(status: Status)

  /** JavaScript's `s.split(' ')`: the fields between single spaces, empty fields included. */
  function Split(s: string): (fields: seq<string>)
    ensures |fields| >= 1
    ensures forall i :: 0 <= i < |fields| ==> ' ' !in fields[i]
    ensures |fields| == 1 <==> ' ' !in s
    decreases |s|
  {
    if s == [] then [""]
    else
      var rest := Split(s[1..]);
      assert s == [s[0]] + s[1..];
      if s[0] == ' ' then [""] + rest
      else [[s[0]] + rest[0]] + rest[1..]
  }

  /** The inverse of Split: the fields glued back with single spaces. */
  function Join(fields: seq<string>): string
    requires |fields| >= 1
    decreases |fields|
  {
    if |fields| == 1 then fields[0] else fields[0] + " " + Join(fields[1..])
  }

  lemma {:induction false} JoinCons(c: char, fields: seq<string>)
    requires |fields| >= 1
    ensures Join([[c] + fields[0]] + fields[1..]) == [c] + Join(fields)
  {
    var f := [[c] + fields[0]] + fields[1..];
    if |fields| > 1 {
      assert f[1..] == fields[1..];
    }
  }

  /** Splitting loses nothing: joining the fields gives back the header. */
  lemma {:induction false} JoinSplit(s: string)
    ensures Join(Split(s)) == s
    decreases |s|
  {
    if s != [] {
      var rest := Split(s[1..]);
      JoinSplit(s[1..]);
      assert s == [s[0]] + s[1..];
      if s[0] == ' ' {
        assert Split(s) == [""] + rest;
        assert ([""] + rest)[1..] == rest;
      } else {
        assert Split(s) == [[s[0]] + rest[0]] + rest[1..];
        JoinCons(s[0], rest);
      }
    }
  }

  lemma {:induction false} SplitField(a: string)
    requires ' ' !in a
    ensures Split(a) == [a]
  {
    JoinSplit(a);
  }

  lemma {:induction false} SplitAfterField(a: string, t: string)
    requires ' ' !in a
    ensures Split(a + " " + t) == [a] + Split(t)
    decreases |a|
  {
    var s := a + " " + t;
    if a == [] {
      assert s == " " + t;
      assert s[1..] == t;
    } else {
      assert s[0] == a[0] && a[0] != ' ';
      assert s[1..] == a[1..] + " " + t;
      SplitAfterField(a[1..], t);
      var rest := Split(s[1..]);
      assert rest[0] == a[1..] && rest[1..] == Split(t);
      assert [a[0]] + a[1..] == a;
    }
  }

  /** Splitting space-free fields glued with single spaces gives back the fields. */
  lemma {:induction false} SplitJoin(fields: seq<string>)
    requires |fields| >= 1
    requires forall i :: 0 <= i < |fields| ==> ' ' !in fields[i]
    ensures Split(Join(fields)) == fields
    decreases |fields|
  {
    if |fields| == 1 {
      SplitField(fields[0]);
    } else {
      SplitAfterField(fields[0], Join(fields[1..]));
      SplitJoin(fields[1..]);
      assert [fields[0]] + fields[1..] == fields;
    }
  }

  /** `authHeader.split(' ')[1]`: undefined (None) when the header holds no space. */
  function Token(header: string): (token: Option<string>)
    ensures token.Some? <==> ' ' in header
    ensures token.Some? ==> ' ' !in token.value
  {
    var fields := Split(header);
    if |fields| >= 2 then Some(fields[1]) else None
  }

  /**
   * `verifyJWT`. `verify` stands for `jwt.verify` with the server's secret: the email of
   * the token's payload when signature and expiry check out. An absent token fails
   * verification as well.
   */
  function VerifyJWT(header: Option<string>, verify: string -> Option<string>): (g: Gate)
    ensures g == Deny(Unauthorized) <==> header.None? || header.value == ""
    ensures g.Admit? <==>
      header.Some? && Token(header.value).Some? && verify(Token(header.value).value).Some?
    ensures g.Admit? ==> verify(Token(header.value).value) == Some(g.email)
    ensures g.Deny? ==> g == Deny(Unauthorized) || g == Deny(Forbidden)
  {
    if header.None? || header.value == "" then Deny(Unauthorized)
    else match Token(header.value)
      case None => Deny(Forbidden)
      case Some(t) => if verify(t).Some? then Admit(verify(t).value) else Deny(Forbidden)
  }

  /**
   * A header `<scheme> <token>` is verified on exactly its second field, whatever the
   * scheme says.
   */
  lemma BearerHeader(scheme: string, token: string, verify: string -> Option<string>)
    requires ' ' !in scheme && ' ' !in token
    ensures Token(scheme + " " + token) == Some(token)
    ensures VerifyJWT(Some(scheme + " " + token), verify)
         == if verify(token).Some? then Admit(verify(token).value) else Deny(Forbidden)
  {
    SplitAfterField(scheme, token);
    SplitField(token);
  }

  /**
   * `verifyAdmin`: look up the requester's account; `next()` (Ok) only for the admin role,
   * 403 for any other role, and a TypeError when no account exists.
   */
  function VerifyAdmin(users: map<string, UserDoc>, requester: string): (r: Reply<()>)
    ensures r.Ok? <==> requester in users && users[requester].role == Some("admin")
    ensures r == Crash <==> requester !in users
    ensures r.Ok? || r == Crash || r == Refused(Forbidden)
  {
    if requester !in users then Crash
    else if users[requester].role == Some("admin") then Ok(())
    else Refused(Forbidden)
  }
}
