/** `parseDirtyPaths` of src/git-store.ts against the NUL-terminated status listing it reads. */
module DirtyPaths {
  import opened Wrappers

  const NUL: char := 0 as char

  predicate NulFree(s: string) {
    NUL !in s
  }

  // ---- the parser ----

  function IndexOfNul(s: string): (i: nat)
    ensures i <= |s| && NulFree(s[..i]) && (i < |s| ==> s[i] == NUL)
  {
    if s == "" || s[0] == NUL then 0
    else
      var j := IndexOfNul(s[1..]);
      assert s[..j + 1] == [s[0]] + s[1..][..j];
      j + 1
  }

  /** `split('\0')`: one piece more than there are NULs. */
  function Split(s: string): seq<string>
    decreases |s|
  {
    var i := IndexOfNul(s);
    if i == |s| then [s] else [s[..i]] + Split(s[i + 1..])
  }

  /** `filter(Boolean)` on strings. */
  function NonEmpty(pieces: seq<string>): seq<string> {
    if pieces == [] then []
    else (if pieces[0] == "" then [] else [pieces[0]]) + NonEmpty(pieces[1..])
  }

  lemma {:induction false} NonEmptyMember(pieces: seq<string>, i: nat)
    requires i < |NonEmpty(pieces)|
    ensures NonEmpty(pieces)[i] != ""
  {
    if pieces[0] == "" {
      NonEmptyMember(pieces[1..], i);
    } else if i > 0 {
      NonEmptyMember(pieces[1..], i - 1);
    }
  }

  /** `slice(3)`. */
  function AfterStatus(token: string): string {
    if |token| >= 3 then token[3..] else ""
  }

  predicate RenameOrCopy(c: char) {
    c == 'R' || c == 'C'
  }

  /** What the parser makes of its tokens; a rename at the end of the input pushes an undefined origin. */
  function PathsIn(tokens: seq<string>): seq<Option<string>>
    decreases |tokens|
  {
    if tokens == [] then []
    else if tokens[0] != "" && RenameOrCopy(tokens[0][0]) then
      if |tokens| == 1 then [Some(AfterStatus(tokens[0])), None]
      else [Some(AfterStatus(tokens[0])), Some(tokens[1])] + PathsIn(tokens[2..])
    else [Some(AfterStatus(tokens[0]))] + PathsIn(tokens[1..])
  }

  /** What is still to come from position `i`, which a rename at the very end leaves one past the end. */
  function PathsFrom(tokens: seq<string>, i: nat): seq<Option<string>> {
    if i <= |tokens| then PathsIn(tokens[i..]) else []
  }

  lemma PathsFromStep(tokens: seq<string>, i: nat)
    requires i < |tokens| && tokens[i] != ""
    ensures PathsFrom(tokens, i)
         == if RenameOrCopy(tokens[i][0])
            then [Some(AfterStatus(tokens[i])), if i + 1 < |tokens| then Some(tokens[i + 1]) else None]
                 + PathsFrom(tokens, i + 2)
            else [Some(AfterStatus(tokens[i]))] + PathsFrom(tokens, i + 1)
  {
    var rest := tokens[i..];
    assert rest[1..] == tokens[i + 1..];
    if |rest| >= 2 { assert rest[2..] == tokens[i + 2..]; }
  }

  method ParseDirtyPaths(porcelainZ: string) returns (paths: seq<Option<string>>)
    ensures paths == PathsIn(NonEmpty(Split(porcelainZ)))
  {
    hide PathsIn;
    var tokens := NonEmpty(Split(porcelainZ));
    paths := [];
    var i := 0;
    assert tokens[0..] == tokens;
    while i < |tokens|
      invariant 0 <= i <= |tokens| + 1
      invariant paths + PathsFrom(tokens, i) == PathsIn(tokens)
    {
      NonEmptyMember(Split(porcelainZ), i);
      PathsFromStep(tokens, i);
      var entry := tokens[i];
      paths := paths + [Some(AfterStatus(entry))];
      var status := entry[0];
      if RenameOrCopy(status) {
        i := i + 1;
        paths := paths + [if i < |tokens| then Some(tokens[i]) else None];
      }
      i := i + 1;
    }
    NothingLeft(tokens, i);
  }

  lemma NothingLeft(tokens: seq<string>, i: nat)
    requires i >= |tokens|
    ensures PathsFrom(tokens, i) == []
  {}

  // ---- what git prints ----

  /** One status entry: its two columns, its path, and where a rename or copy came from. */
  datatype Entry = Entry(x: char, y: char, path: string, origin: Option<string>)

  /** Paths are non-empty and NUL-free; an origin is printed exactly for a rename or copy in either column. */
  predicate WellFormed(e: Entry) {
    && e.x != NUL && e.y != NUL && e.path != "" && NulFree(e.path)
    && (e.origin.Some? <==> RenameOrCopy(e.x) || RenameOrCopy(e.y))
    && (e.origin.Some? ==> e.origin.value != "" && NulFree(e.origin.value))
  }

  function Token(e: Entry): string {
    [e.x, e.y, ' '] + e.path
  }

  function Print(es: seq<Entry>): string {
    if es == [] then ""
    else
      match es[0].origin
      case None => Token(es[0]) + [NUL] + Print(es[1..])
      case Some(origin) => Token(es[0]) + [NUL] + (origin + [NUL] + Print(es[1..]))
  }

  /** Every path and every rename origin, in order. */
  function PathsOf(es: seq<Entry>): seq<Option<string>> {
    if es == [] then []
    else
      match es[0].origin
      case None => [Some(es[0].path)] + PathsOf(es[1..])
      case Some(origin) => [Some(es[0].path), Some(origin)] + PathsOf(es[1..])
  }

  function TokensOf(es: seq<Entry>): seq<string> {
    if es == [] then []
    else
      match es[0].origin
      case None => [Token(es[0])] + TokensOf(es[1..])
      case Some(origin) => [Token(es[0])] + ([origin] + TokensOf(es[1..]))
  }

  lemma {:induction false} IndexOfNulIs(piece: string, rest: string)
    requires NulFree(piece)
    ensures IndexOfNul(piece + [NUL] + rest) == |piece|
  {
    if piece != "" {
      assert (piece + [NUL] + rest)[1..] == piece[1..] + [NUL] + rest;
      IndexOfNulIs(piece[1..], rest);
    }
  }

  lemma SplitPiece(piece: string, rest: string)
    requires NulFree(piece) && piece != ""
    ensures NonEmpty(Split(piece + [NUL] + rest)) == [piece] + NonEmpty(Split(rest))
  {
    var s := piece + [NUL] + rest;
    IndexOfNulIs(piece, rest);
    assert s[..|piece|] == piece && s[|piece| + 1..] == rest;
    assert Split(s) == [piece] + Split(rest);
  }

  lemma TokenIsPiece(e: Entry)
    requires WellFormed(e)
    ensures NulFree(Token(e)) && Token(e) != "" && Token(e)[0] == e.x && AfterStatus(Token(e)) == e.path
  {}

  lemma {:induction false} TokensOfPrint(es: seq<Entry>)
    requires forall e :: e in es ==> WellFormed(e)
    ensures NonEmpty(Split(Print(es))) == TokensOf(es)
  {
    if es == [] {
      assert Split("") == [""];
    } else {
      hide Split, NonEmpty, Token;
      var e, rest := es[0], Print(es[1..]);
      TokensOfPrint(es[1..]);
      TokenIsPiece(e);
      match e.origin
      case None =>
        SplitPiece(Token(e), rest);
      case Some(origin) =>
        SplitPiece(Token(e), origin + [NUL] + rest);
        SplitPiece(origin, rest);
    }
  }

  /** The parser knows renames and copies by the first column only. */
  predicate InFirstColumn(es: seq<Entry>) {
    forall e :: e in es && e.origin.Some? ==> RenameOrCopy(e.x)
  }

  lemma {:induction false} PathsInTokensExactly(es: seq<Entry>)
    requires forall e :: e in es ==> WellFormed(e)
    ensures PathsIn(TokensOf(es)) == PathsOf(es) <==> InFirstColumn(es)
  {
    if es != [] {
      hide Token, AfterStatus;
      var e, rest := es[0], es[1..];
      assert es == [e] + rest;
      PathsInTokensExactly(rest);
      TokenIsPiece(e);
      var tokens := TokensOf(es);
      match e.origin
      case None =>
        assert tokens[1..] == TokensOf(rest);
        SameTail([Some(e.path)], PathsIn(TokensOf(rest)), PathsOf(rest));
      case Some(origin) =>
        assert tokens[1..] == [origin] + TokensOf(rest);
        if RenameOrCopy(e.x) {
          assert tokens[2..] == TokensOf(rest);
          SameTail([Some(e.path), Some(origin)], PathsIn(TokensOf(rest)), PathsOf(rest));
        } else {
          StatusIsCutOff(origin, TokensOf(rest));
          assert PathsIn(tokens)[1] == PathsIn(tokens[1..])[0];
        }
    }
  }

  /** An origin taken for an entry loses its first three characters. */
  lemma StatusIsCutOff(origin: string, rest: seq<string>)
    requires origin != ""
    ensures var paths := PathsIn([origin] + rest); paths != [] && paths[0] != Some(origin)
  {
    assert |AfterStatus(origin)| < |origin|;
  }

  lemma SameTail<T>(head: seq<T>, a: seq<T>, b: seq<T>)
    ensures head + a == head + b <==> a == b
  {
    assert (head + a)[|head|..] == a && (head + b)[|head|..] == b;
  }

  /** Parsing what git prints returns exactly every path and every rename origin, in order, exactly when
      each rename or copy is marked in the first status column. */
  lemma RoundTripExactly(es: seq<Entry>)
    requires forall e :: e in es ==> WellFormed(e)
    ensures PathsIn(NonEmpty(Split(Print(es)))) == PathsOf(es) <==> InFirstColumn(es)
  {
    TokensOfPrint(es);
    PathsInTokensExactly(es);
  }

  /** Input cut off after a rename's own path, before its origin: every path before it, then that path, then an
      undefined one. */
  lemma {:induction false} CutOffRename(es: seq<Entry>, last: Entry)
    requires (forall e :: e in es ==> WellFormed(e)) && InFirstColumn(es)
    requires WellFormed(last) && RenameOrCopy(last.x)
    ensures PathsIn(TokensOf(es) + [Token(last)]) == PathsOf(es) + [Some(last.path), None]
  {
    var tail := [Token(last)];
    if es == [] {
      TokenIsPiece(last);
      assert TokensOf(es) + tail == tail;
    } else {
      hide Token, AfterStatus;
      var e, rest := es[0], es[1..];
      assert es == [e] + rest;
      CutOffRename(rest, last);
      TokenIsPiece(e);
      var tokens := TokensOf(es) + tail;
      if e.origin.Some? {
        assert tokens[2..] == TokensOf(rest) + tail;
      } else {
        assert tokens[1..] == TokensOf(rest) + tail;
      }
    }
  }
}
