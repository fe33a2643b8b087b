/** Shared vocabulary: identities, optional values, HTTP failures, and the
    array updates MongoDB applies to the documents' array fields
    (`$addToSet`, `$pull`). */
module Base {

  /** A user's document id (a MongoDB ObjectId, compared by its string form). */
  type UserId = nat

  /** A Socket.IO connection id. */
  type SocketId = nat

  datatype Option<T> = None | Some(value: T)

  /** The failure replies the HTTP controllers send. */
  datatype HttpError = BadRequest | Forbidden | NotFound | ServerError {
    function Code(): int {
      match this
      case BadRequest => 400
      case Forbidden => 403
      case NotFound => 404
      case ServerError => 500
    }
  }

  function Min(a: int, b: int): int {
    if a <= b then a else b
  }

  predicate NoDup<T(==)>(s: seq<T>) {
    forall i, j :: 0 <= i < j < |s| ==> s[i] != s[j]
  }

  /** `$addToSet` on an array: appends `x` unless it is already present. */
  function AddToSet<T(==,!new)>(s: seq<T>, x: T): (r: seq<T>)
    ensures forall y :: y in r <==> y in s || y == x
    ensures x in s ==> r == s
    ensures x !in s ==> |r| == |s| + 1 && r[..|s|] == s
    ensures NoDup(s) ==> NoDup(r)
  {
    if x in s then s else s + [x]
  }

  /** `$pull` (and Mongoose's `Array.pull`): removes every occurrence of `x`
      and keeps the remaining elements in their order. */
  function Pull<T(==,!new)>(s: seq<T>, x: T): (r: seq<T>)
    ensures forall y :: y in r <==> y in s && y != x
    ensures |r| <= |s|
    ensures x !in s ==> r == s
    ensures x in s ==> |r| < |s|
    ensures NoDup(s) ==> NoDup(r)
  {
    if |s| == 0 then []
    else if s[0] == x then Pull(s[1..], x)
    else
      var rest := Pull(s[1..], x);
      assert NoDup(s) ==> s[0] !in s[1..];
      [s[0]] + rest
  }

  /** On a duplicate-free array, `$pull` of a present value removes exactly
      its one position and keeps everything else in order. */
  lemma {:induction false} PullRemovesOne<T(!new)>(s: seq<T>, x: T)
    requires NoDup(s) && x in s
    ensures exists k :: 0 <= k < |s| && s[k] == x && Pull(s, x) == s[..k] + s[k + 1..]
  {
    if s[0] == x {
      assert x !in s[1..];
      assert Pull(s, x) == s[..0] + s[1..];
    } else {
      assert x in s[1..] && NoDup(s[1..]);
      PullRemovesOne(s[1..], x);
      var j :| 0 <= j < |s| - 1 && s[1..][j] == x && Pull(s[1..], x) == s[1..][..j] + s[1..][j + 1..];
      assert s[..j + 1] == [s[0]] + s[1..][..j];
      assert s[j + 2..] == s[1..][j + 1..];
      assert Pull(s, x) == s[..j + 1] + s[j + 2..];
    }
  }

  /** The first element `$pull` keeps is the first element of the array
      that differs from `x`. */
  lemma {:induction false} PullFirst<T(!new)>(s: seq<T>, x: T)
    requires Pull(s, x) != []
    ensures exists k :: 0 <= k < |s| && s[k] == Pull(s, x)[0] && s[k] != x && forall j :: 0 <= j < k ==> s[j] == x
  {
    if s[0] != x {
      assert s[0] == Pull(s, x)[0];
    } else {
      PullFirst(s[1..], x);
      var j :| 0 <= j < |s| - 1 && s[1..][j] == Pull(s[1..], x)[0] && s[1..][j] != x
               && forall i :: 0 <= i < j ==> s[1..][i] == x;
      assert forall i :: 1 <= i < j + 1 ==> s[i] == s[1..][i - 1];
    }
  }

  /** `$pull` works element by element: pulling from a concatenation pulls
      from each part, and a single element is dropped exactly when it is `x`.
      Together these fix the result, order included. */
  lemma {:induction false} PullAppend<T(!new)>(a: seq<T>, b: seq<T>, x: T)
    ensures Pull(a + b, x) == Pull(a, x) + Pull(b, x)
    ensures Pull([x], x) == [] && forall y :: y != x ==> Pull([y], x) == [y]
  {
    if |a| > 0 {
      assert (a + b)[1..] == a[1..] + b;
      PullAppend(a[1..], b, x);
    } else {
      assert a + b == b;
    }
  }

  /** The upper-case form of an ASCII letter; every other character is kept. */
  function UpperChar(c: char): char {
    if 'a' <= c <= 'z' then (c as int - 32) as char else c
  }

  /** `String.prototype.toUpperCase`, restricted to ASCII letters. */
  function ToUpper(s: string): (r: string)
    ensures |r| == |s|
    ensures forall i :: 0 <= i < |s| && 'a' <= s[i] <= 'z' ==> r[i] as int == s[i] as int - 32
    ensures forall i :: 0 <= i < |s| && !('a' <= s[i] <= 'z') ==> r[i] == s[i]
    ensures forall i :: 0 <= i < |r| ==> !('a' <= r[i] <= 'z')
  {
    if |s| == 0 then "" else [UpperChar(s[0])] + ToUpper(s[1..])
  }

  lemma ToUpperIdempotent(s: string)
    ensures ToUpper(ToUpper(s)) == ToUpper(s)
  {
    var u := ToUpper(s);
    assert forall i :: 0 <= i < |u| ==> ToUpper(u)[i] == u[i];
  }
}
