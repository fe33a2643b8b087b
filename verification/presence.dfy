/** The userId -> socket id directory (`userSocketMap`). A JavaScript `Map`
    iterates in insertion order and `set` on an existing key keeps the key's
    place, so the directory is a sequence of bindings in that order. */
module Presence {
  import opened Base

  datatype Binding = Binding(user: UserId, socket: SocketId)

  type Directory = seq<Binding>

  function Users(d: Directory): set<UserId> {
    if |d| == 0 then {} else {d[0].user} + Users(d[1..])
  }

  lemma {:induction false} UsersMembership(d: Directory, u: UserId)
    ensures u in Users(d) <==> exists i :: 0 <= i < |d| && d[i].user == u
  {
    if |d| > 0 {
      UsersMembership(d[1..], u);
      assert forall i :: 1 <= i < |d| ==> d[i] == d[1..][i - 1];
      if u in Users(d[1..]) {
        var i :| 0 <= i < |d| - 1 && d[1..][i].user == u;
        assert d[i + 1].user == u;
      }
    }
  }

  /** A `Map` holds each key once. */
  predicate UniqueUsers(d: Directory) {
    forall i, j :: 0 <= i < j < |d| ==> d[i].user != d[j].user
  }

  lemma UniqueUsersCons(d: Directory)
    requires |d| > 0
    ensures UniqueUsers(d) <==> UniqueUsers(d[1..]) && d[0].user !in Users(d[1..])
  {
    UsersMembership(d[1..], d[0].user);
    if UniqueUsers(d[1..]) && d[0].user !in Users(d[1..]) {
      forall i, j | 0 <= i < j < |d| ensures d[i].user != d[j].user {
        assert d[j] == d[1..][j - 1];
        if i > 0 { assert d[i] == d[1..][i - 1]; }
      }
    }
  }

  /** `userSocketMap.get(u)`. */
  function Lookup(d: Directory, u: UserId): (r: Option<SocketId>)
    ensures r.None? <==> u !in Users(d)
    ensures r.Some? ==> Binding(u, r.value) in d
  {
    if |d| == 0 then None
    else if d[0].user == u then Some(d[0].socket)
    else Lookup(d[1..], u)
  }

  /** `userSocketMap.set(u, s)`: overwrites the socket of `u` in place, or
      appends a new binding. */
  function Register(d: Directory, u: UserId, s: SocketId): (r: Directory)
    ensures Users(r) == Users(d) + {u}
    ensures Lookup(r, u) == Some(s)
    ensures u in Users(d) ==> |r| == |d|
    ensures u !in Users(d) ==> |r| == |d| + 1
    ensures UniqueUsers(d) ==> UniqueUsers(r)
  {
    if |d| == 0 then [Binding(u, s)]
    else
      var r := if d[0].user == u then [Binding(u, s)] + d[1..] else [d[0]] + Register(d[1..], u, s);
      assert r[1..] == if d[0].user == u then d[1..] else Register(d[1..], u, s);
      assert UniqueUsers(d) ==> UniqueUsers(r) by {
        if UniqueUsers(d) {
          UniqueUsersCons(d);
          UniqueUsersCons(r);
        }
      }
      r
  }

  /** `set` on one key leaves every other key resolving as before. */
  lemma {:induction false} RegisterKeepsOthers(d: Directory, u: UserId, s: SocketId, v: UserId)
    requires v != u
    ensures Lookup(Register(d, u, s), v) == Lookup(d, v)
  {
    if |d| > 0 && d[0].user != u {
      RegisterKeepsOthers(d[1..], u, s, v);
    }
  }

  /** A user without a binding is appended at the end, as a new `Map` key. */
  lemma {:induction false} RegisterAppends(d: Directory, u: UserId, s: SocketId)
    requires u !in Users(d)
    ensures Register(d, u, s) == d + [Binding(u, s)]
  {
    if |d| > 0 {
      RegisterAppends(d[1..], u, s);
      assert d == [d[0]] + d[1..];
    }
  }

  /** A user with a binding keeps its place: only the socket at that
      position changes. */
  lemma {:induction false} RegisterInPlace(d: Directory, u: UserId, s: SocketId, k: nat)
    requires UniqueUsers(d) && k < |d| && d[k].user == u
    ensures Register(d, u, s) == d[k := Binding(u, s)]
  {
    if d[0].user != u {
      assert UniqueUsers(d[1..]) by {
        forall i, j | 0 <= i < j < |d| - 1 ensures d[1..][i].user != d[1..][j].user {
          assert d[1..][i] == d[i + 1] && d[1..][j] == d[j + 1];
        }
      }
      assert d[1..][k - 1] == d[k];
      RegisterInPlace(d[1..], u, s, k - 1);
      var t := Register(d[1..], u, s);
      assert Register(d, u, s) == [d[0]] + t;
      assert t == d[1..][k - 1 := Binding(u, s)];
      assert d[k := Binding(u, s)] == [d[0]] + d[1..][k - 1 := Binding(u, s)];
    }
  }

  /** The index of the first binding whose socket is `s`. */
  function FirstWithSocket(d: Directory, s: SocketId): (k: Option<nat>)
    ensures k.None? <==> forall j :: 0 <= j < |d| ==> d[j].socket != s
    ensures k.Some? ==> k.value < |d| && d[k.value].socket == s
    ensures k.Some? ==> forall j :: 0 <= j < k.value ==> d[j].socket != s
  {
    if |d| == 0 then None
    else if d[0].socket == s then Some(0)
    else
      match FirstWithSocket(d[1..], s)
      case None =>
        assert forall j :: 1 <= j < |d| ==> d[j] == d[1..][j - 1];
        None
      case Some(k) =>
        assert forall j :: 1 <= j < k + 1 ==> d[j] == d[1..][j - 1];
        Some(k + 1)
  }

  /** The disconnect loop: deletes the first binding whose socket is `s`
      and stops, so every other binding survives in its order. */
  function Disconnect(d: Directory, s: SocketId): (r: Directory)
    ensures FirstWithSocket(d, s).None? ==> r == d
    ensures FirstWithSocket(d, s).Some? ==>
      var k := FirstWithSocket(d, s).value; r == d[..k] + d[k + 1..]
  {
    if |d| == 0 then []
    else if d[0].socket == s then d[1..]
    else
      var tail := Disconnect(d[1..], s);
      assert FirstWithSocket(d[1..], s).Some? ==>
        var k := FirstWithSocket(d[1..], s).value;
        [d[0]] + tail == d[..k + 1] + d[k + 2..];
      [d[0]] + tail
  }

  lemma {:induction false} UsersConcat(a: Directory, b: Directory)
    ensures Users(a + b) == Users(a) + Users(b)
  {
    if |a| == 0 {
      assert a + b == b;
    } else {
      assert (a + b)[1..] == a[1..] + b;
      UsersConcat(a[1..], b);
    }
  }

  /** Removing one binding loses no key other than the removed binding's. */
  lemma {:induction false} DisconnectUsers(d: Directory, s: SocketId)
    requires UniqueUsers(d)
    ensures FirstWithSocket(d, s).None? ==> Users(Disconnect(d, s)) == Users(d)
    ensures FirstWithSocket(d, s).Some? ==>
      Users(Disconnect(d, s)) == Users(d) - {d[FirstWithSocket(d, s).value].user}
  {
    match FirstWithSocket(d, s)
    case None =>
    case Some(k) =>
      var u := d[k].user;
      var before, after := d[..k], d[k + 1..];
      assert d == before + [d[k]] + after;
      UsersConcat(before + [d[k]], after);
      UsersConcat(before, [d[k]]);
      UsersConcat(before, after);
      assert Users([d[k]]) == {u};
      UsersMembership(before, u);
      UsersMembership(after, u);
      assert u !in Users(before) by {
        forall i | 0 <= i < |before| ensures before[i].user != u {
          assert before[i] == d[i];
        }
      }
      assert u !in Users(after) by {
        forall i | 0 <= i < |after| ensures after[i].user != u {
          assert after[i] == d[k + 1 + i];
        }
      }
  }

  /** Removing one binding keeps the remaining keys unique. */
  lemma {:induction false} DisconnectKeepsUnique(d: Directory, s: SocketId)
    requires UniqueUsers(d)
    ensures UniqueUsers(Disconnect(d, s))
    ensures Users(Disconnect(d, s)) <= Users(d)
  {
    if |d| > 0 {
      UniqueUsersCons(d);
      if d[0].socket != s {
        var tail := Disconnect(d[1..], s);
        DisconnectKeepsUnique(d[1..], s);
        var r := Disconnect(d, s);
        assert r[1..] == tail && r[0] == d[0];
        assert Users(r) == {d[0].user} + Users(tail);
        UniqueUsersCons(r);
      }
    }
  }

}
