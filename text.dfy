/** The few JavaScript string operations the handlers rely on: truthiness of a
    request field, `startsWith`, and `split(' ')` with indexing. */
module Text {
  import opened Base

  /** JavaScript truthiness of an optional request string: `undefined` and `""` are falsy. */
  predicate Present(v: Option<string>) {
    v.Some? && v.value != ""
  }

  predicate StartsWith(s: string, prefix: string) {
    |prefix| <= |s| && s[..|prefix|] == prefix
  }

  /** `s.split(' ')`: the pieces between single spaces, empty pieces included. */
  function Split(s: string): (pieces: seq<string>)
    ensures |pieces| >= 1
    ensures forall i :: 0 <= i < |pieces| ==> ' ' !in pieces[i]
  {
    if s == [] then [""]
    else
      var rest := Split(s[1..]);
      if s[0] == ' ' then [""] + rest
      else [[s[0]] + rest[0]] + rest[1..]
  }

  /** `pieces.join(' ')`. */
  function Join(pieces: seq<string>): string
    requires |pieces| >= 1
  {
    if |pieces| == 1 then pieces[0] else pieces[0] + " " + Join(pieces[1..])
  }

  /** `s.split(' ')[i]`, which is `undefined` past the last piece. */
  function Piece(s: string, i: nat): Option<string> {
    var pieces := Split(s);
    if i < |pieces| then Some(pieces[i]) else None
  }

  /** Gluing a prefix onto the first piece glues it onto the joined string. */
  lemma {:induction false} JoinOntoFirst(p: string, ps: seq<string>)
    requires |ps| >= 1
    ensures Join([p + ps[0]] + ps[1..]) == p + Join(ps)
  {
    var q := [p + ps[0]] + ps[1..];
    if |ps| > 1 {
      assert q[0] == p + ps[0] && q[1..] == ps[1..];
      var tail := Join(ps[1..]);
      assert Join(q) == q[0] + " " + tail;
      assert Join(ps) == ps[0] + " " + tail;
      assert (p + ps[0]) + " " + tail == p + (ps[0] + " " + tail);
    } else {
      assert q == [p + ps[0]];
    }
  }

  /** Joining the pieces of a split gives the string back. */
  lemma {:induction false} JoinSplit(s: string)
    ensures Join(Split(s)) == s
    decreases |s|
  {
    if s != [] {
      var rest := Split(s[1..]);
      JoinSplit(s[1..]);
      assert s == [s[0]] + s[1..];
      if s[0] == ' ' {
        assert Split(s) == [""] + rest;
        assert ([""] + rest)[1..] == rest;
      } else {
        assert Split(s) == [[s[0]] + rest[0]] + rest[1..];
        JoinOntoFirst([s[0]], rest);
      }
    }
  }

  /** A string without a space is a single piece. */
  lemma {:induction false} SplitWord(w: string)
    requires ' ' !in w
    ensures Split(w) == [w]
    decreases |w|
  {
    if w != [] {
      assert ' ' !in w[1..] by {
        forall i | 0 <= i < |w[1..]| ensures w[1..][i] != ' ' {
          assert w[1..][i] == w[i + 1];
        }
      }
      SplitWord(w[1..]);
      assert w == [w[0]] + w[1..];
    }
  }

  /** A word followed by a space always forms the first piece. */
  lemma {:induction false} SplitAfterWord(w: string, t: string)
    requires ' ' !in w
    ensures Split(w + " " + t) == [w] + Split(t)
    decreases |w|
  {
    if w == [] {
      assert w + " " + t == [' '] + t;
      assert (w + " " + t)[1..] == t;
    } else {
      assert ' ' !in w[1..] by {
        forall i | 0 <= i < |w[1..]| ensures w[1..][i] != ' ' {
          assert w[1..][i] == w[i + 1];
        }
      }
      SplitAfterWord(w[1..], t);
      var s := w + " " + t;
      assert s[0] == w[0];
      assert s[1..] == w[1..] + " " + t;
      assert w == [w[0]] + w[1..];
    }
  }

  /** Splitting pieces joined by single spaces gives the pieces back, when no piece holds a space. */
  lemma {:induction false} SplitJoin(pieces: seq<string>)
    requires |pieces| >= 1
    requires forall i :: 0 <= i < |pieces| ==> ' ' !in pieces[i]
    ensures Split(Join(pieces)) == pieces
    decreases |pieces|
  {
    if |pieces| == 1 {
      SplitWord(pieces[0]);
    } else {
      SplitJoin(pieces[1..]);
      SplitAfterWord(pieces[0], Join(pieces[1..]));
      assert pieces == [pieces[0]] + pieces[1..];
    }
  }

  /** In `scheme + " " + token`, with neither part holding a space, `split(' ')[1]` is the token. */
  lemma SecondPiece(scheme: string, token: string)
    requires ' ' !in scheme && ' ' !in token
    ensures Piece(scheme + " " + token, 1) == Some(token)
  {
    SplitAfterWord(scheme, token);
    SplitWord(token);
  }
}
