/** `slugifyHiveId` of electron-app/src/main.ts, on POSIX paths. */
module HiveSlug {

  predicate Alnum(c: char) {
    'a' <= c <= 'z' || '0' <= c <= '9'
  }

  predicate SlugChar(c: char) {
    Alnum(c) || c == '-'
  }

  /** Non-empty, over lower-case letters, digits and single inner dashes. */
  ghost predicate IsSlug(s: string) {
    && s != ""
    && (forall i :: 0 <= i < |s| ==> SlugChar(s[i]))
    && s[0] != '-' && s[|s| - 1] != '-'
    && NoDoubleDash(s)
  }

  ghost predicate NoDoubleDash(s: string) {
    forall i :: 0 <= i < |s| - 1 ==> !(s[i] == '-' && s[i + 1] == '-')
  }

  // ---- the pipeline ----

  /** Drops a trailing run of the character. */
  function TrimEnd(s: string, c: char): string {
    if s != "" && s[|s| - 1] == c then TrimEnd(s[..|s| - 1], c) else s
  }

  /** Drops a leading run of the character. */
  function TrimStart(s: string, c: char): string {
    if s != "" && s[0] == c then TrimStart(s[1..], c) else s
  }

  /** What follows the last slash. */
  function LastSegment(s: string): string {
    if s == "" || s[|s| - 1] == '/' then "" else LastSegment(s[..|s| - 1]) + [s[|s| - 1]]
  }

  /** `path.basename` on a POSIX path: trailing slashes do not count. */
  function Basename(path: string): string {
    LastSegment(TrimEnd(path, '/'))
  }

  /** Each run of anything but lower-case letters and digits becomes one dash. */
  function Dashed(s: string): string {
    if s == "" then ""
    else
      var front, c := Dashed(s[..|s| - 1]), s[|s| - 1];
      if Alnum(c) then front + [c]
      else if front != "" && front[|front| - 1] == '-' then front
      else front + "-"
  }

  /** The stub: strip leading dots, dash the rest, trim dashes. */
  function Stub(lowered: string): string {
    TrimEnd(TrimStart(Dashed(TrimStart(lowered, '.')), '-'), '-')
  }

  /** `lower` is `toLowerCase`. */
  function Slugify(lower: string -> string, dataDir: string): string {
    var stub := Stub(lower(Basename(dataDir)));
    if stub == "" then "hive" else stub
  }

  // ---- its shape ----

  lemma {:induction false} DashedShape(s: string)
    ensures (forall i :: 0 <= i < |Dashed(s)| ==> SlugChar(Dashed(s)[i])) && NoDoubleDash(Dashed(s))
  {
    if s != "" {
      DashedShape(s[..|s| - 1]);
    }
  }

  lemma {:induction false} TrimStartIsSuffix(s: string, c: char) returns (k: nat)
    ensures k <= |s| && TrimStart(s, c) == s[k..] && (k < |s| ==> s[k] != c)
    ensures forall i :: 0 <= i < k ==> s[i] == c
  {
    if s != "" && s[0] == c {
      var j := TrimStartIsSuffix(s[1..], c);
      k := j + 1;
    } else {
      k := 0;
    }
  }

  lemma {:induction false} TrimEndIsPrefix(s: string, c: char) returns (k: nat)
    ensures k <= |s| && TrimEnd(s, c) == s[..k] && (k > 0 ==> s[k - 1] != c)
    ensures forall i :: k <= i < |s| ==> s[i] == c
  {
    if s != "" && s[|s| - 1] == c {
      k := TrimEndIsPrefix(s[..|s| - 1], c);
      assert s[..|s| - 1][..k] == s[..k];
    } else {
      k := |s|;
    }
  }

  /** The slug is always a slug. */
  lemma SlugifyIsSlug(lower: string -> string, dataDir: string)
    ensures IsSlug(Slugify(lower, dataDir))
  {
    var lowered := lower(Basename(dataDir));
    var dashed := Dashed(TrimStart(lowered, '.'));
    DashedShape(TrimStart(lowered, '.'));
    var i := TrimStartIsSuffix(dashed, '-');
    var j := TrimEndIsPrefix(dashed[i..], '-');
    var stub := dashed[i..][..j];
    assert Stub(lowered) == stub;
    forall k | 0 <= k < |stub| ensures stub[k] == dashed[i + k] {}
  }

  // ---- idempotence ----

  lemma {:induction false} DashedIsIdentity(s: string)
    requires (forall i :: 0 <= i < |s| ==> SlugChar(s[i])) && NoDoubleDash(s)
    ensures Dashed(s) == s
  {
    if s != "" {
      DashedIsIdentity(s[..|s| - 1]);
    }
  }

  lemma {:induction false} LastSegmentIsIdentity(s: string)
    requires forall i :: 0 <= i < |s| ==> s[i] != '/'
    ensures LastSegment(s) == s
  {
    if s != "" {
      LastSegmentIsIdentity(s[..|s| - 1]);
    }
  }

  /** Exactly the slugs are left as they are, so slugifying twice is slugifying once. */
  lemma SlugsAreFixed(lower: string -> string, s: string)
    requires IsSlug(s) ==> lower(s) == s
    ensures Slugify(lower, s) == s <==> IsSlug(s)
  {
    SlugifyIsSlug(lower, s);
    if IsSlug(s) {
      LastSegmentIsIdentity(s);
      assert Basename(s) == s && TrimStart(s, '.') == s;
      DashedIsIdentity(s);
    }
  }

  lemma SlugifyIdempotent(lower: string -> string, dataDir: string)
    requires forall s :: IsSlug(s) ==> lower(s) == s
    ensures Slugify(lower, Slugify(lower, dataDir)) == Slugify(lower, dataDir)
  {
    SlugifyIsSlug(lower, dataDir);
    SlugsAreFixed(lower, Slugify(lower, dataDir));
  }

  // ---- what survives ----

  /** The letters and digits of a string, in order. */
  function Alnums(s: string): string {
    if s == "" then "" else Alnums(s[..|s| - 1]) + (if Alnum(s[|s| - 1]) then [s[|s| - 1]] else "")
  }

  lemma {:induction false} AlnumsConcat(a: string, b: string)
    ensures Alnums(a + b) == Alnums(a) + Alnums(b)
    decreases |b|
  {
    if b == "" {
      assert a + b == a;
    } else {
      assert (a + b)[..|a + b| - 1] == a + b[..|b| - 1];
      AlnumsConcat(a, b[..|b| - 1]);
    }
  }

  lemma {:induction false} AlnumsOfDashed(s: string)
    ensures Alnums(Dashed(s)) == Alnums(s)
  {
    if s != "" {
      var front, c := Dashed(s[..|s| - 1]), s[|s| - 1];
      AlnumsOfDashed(s[..|s| - 1]);
      if Alnum(c) {
        assert (front + [c])[..|front|] == front;
      } else {
        assert (front + "-")[..|front|] == front;
      }
    }
  }

  lemma {:induction false} TrimEndKeepsAlnums(s: string, c: char)
    requires !Alnum(c)
    ensures Alnums(TrimEnd(s, c)) == Alnums(s)
  {
    if s != "" && s[|s| - 1] == c {
      TrimEndKeepsAlnums(s[..|s| - 1], c);
    }
  }

  lemma {:induction false} TrimStartKeepsAlnums(s: string, c: char)
    requires !Alnum(c)
    ensures Alnums(TrimStart(s, c)) == Alnums(s)
  {
    if s != "" && s[0] == c {
      TrimStartKeepsAlnums(s[1..], c);
      AlnumsConcat([c], s[1..]);
      assert s == [c] + s[1..];
      assert Alnums([c]) == "" + "";
    }
  }

  /** The slug keeps every letter and digit of the lower-cased basename, in order; only a name with
      none of them becomes "hive". */
  lemma SlugKeepsLettersAndDigits(lower: string -> string, dataDir: string)
    ensures var name := lower(Basename(dataDir));
            if Alnums(name) == "" then Slugify(lower, dataDir) == "hive"
            else Alnums(Slugify(lower, dataDir)) == Alnums(name)
  {
    var name := lower(Basename(dataDir));
    var bare := TrimStart(name, '.');
    TrimStartKeepsAlnums(name, '.');
    AlnumsOfDashed(bare);
    TrimStartKeepsAlnums(Dashed(bare), '-');
    TrimEndKeepsAlnums(TrimStart(Dashed(bare), '-'), '-');
    SlugifyIsSlug(lower, dataDir);
    if Alnums(name) == "" && Stub(name) != "" {
      AlnumInside(Stub(name));
    }
  }

  lemma AlnumInside(s: string)
    requires s != "" && (s[|s| - 1] != '-' && SlugChar(s[|s| - 1]))
    ensures Alnums(s) != ""
  {}

  // ---- the slug as its words ----

  /** The longest runs of letters and digits, in order. */
  function Words(s: string): seq<string> {
    if s == "" then []
    else
      var front, c := s[..|s| - 1], s[|s| - 1];
      var words := Words(front);
      if !Alnum(c) then words
      else if front != "" && Alnum(front[|front| - 1]) && words != []
      then words[..|words| - 1] + [words[|words| - 1] + [c]]
      else words + [[c]]
  }

  function Joined(words: seq<string>): string {
    if words == [] then ""
    else if |words| == 1 then words[0]
    else Joined(words[..|words| - 1]) + "-" + words[|words| - 1]
  }

  lemma {:induction false} JoinedGrows(words: seq<string>, c: char)
    requires words != []
    ensures Joined(words[..|words| - 1] + [words[|words| - 1] + [c]]) == Joined(words) + [c]
  {
    var front, last := words[..|words| - 1], words[|words| - 1];
    var more := front + [last + [c]];
    assert more[..|more| - 1] == front;
    if front != [] { assert Joined(front) + "-" + (last + [c]) == Joined(front) + "-" + last + [c]; }
  }

  lemma JoinedAppend(words: seq<string>, c: char)
    ensures Joined(words + [[c]]) == if words == [] then [c] else Joined(words) + "-" + [c]
  {
    assert (words + [[c]])[..|words|] == words;
  }

  lemma {:induction false} LastCharHasWord(s: string)
    requires s != "" && Alnum(s[|s| - 1])
    ensures Words(s) != []
  {}

  lemma {:induction false} WordsOfDashed(s: string)
    ensures Words(Dashed(s)) == Words(s)
    ensures s != "" ==> Dashed(s) != "" && (Alnum(Dashed(s)[|Dashed(s)| - 1]) <==> Alnum(s[|s| - 1]))
  {
    if s != "" {
      var front, c := Dashed(s[..|s| - 1]), s[|s| - 1];
      WordsOfDashed(s[..|s| - 1]);
      if Alnum(c) {
        assert (front + [c])[..|front|] == front;
      } else {
        assert (front + "-")[..|front|] == front;
      }
    }
  }

  lemma {:induction false} WordsOfTrimEnd(s: string, c: char)
    requires !Alnum(c)
    ensures Words(TrimEnd(s, c)) == Words(s)
  {
    if s != "" && s[|s| - 1] == c {
      WordsOfTrimEnd(s[..|s| - 1], c);
    }
  }

  lemma {:induction false} WordsBehind(c: char, s: string)
    requires !Alnum(c)
    ensures Words([c] + s) == Words(s)
  {
    if s == "" {
      assert [c] + s == [c] && [c][..0] == "";
    } else {
      WordsBehind(c, s[..|s| - 1]);
      assert ([c] + s)[..|s|] == [c] + s[..|s| - 1];
      if |s| > 1 && Alnum(s[|s| - 2]) { LastCharHasWord(s[..|s| - 1]); }
    }
  }

  lemma {:induction false} WordsOfTrimStart(s: string, c: char)
    requires !Alnum(c)
    ensures Words(TrimStart(s, c)) == Words(s)
  {
    if s != "" && s[0] == c {
      WordsOfTrimStart(s[1..], c);
      WordsBehind(c, s[1..]);
      assert s == [c] + s[1..];
    }
  }

  /** How one more character changes the words and their joining. */
  lemma {:induction false} JoinedStep(front: string, c: char)
    requires front != "" ==> Words(front) != []
    ensures var words, grown := Words(front), Words(front + [c]);
            if !Alnum(c) then grown == words
            else && grown != []
                 && Joined(grown) == if front == "" then [c]
                                     else if Alnum(front[|front| - 1]) then Joined(words) + [c]
                                     else Joined(words) + "-" + [c]
  {
    assert (front + [c])[..|front|] == front;
    if front != "" && Alnum(front[|front| - 1]) {
      JoinedGrows(Words(front), c);
    } else {
      JoinedAppend(Words(front), c);
    }
    hide Joined;
  }

  /** Over slug characters, starting with a word, no two dashes in a row. */
  ghost predicate SlugStart(s: string) {
    (forall i :: 0 <= i < |s| ==> SlugChar(s[i])) && NoDoubleDash(s) && (s != "" ==> s[0] != '-')
  }

  lemma {:induction false} SlugStartFront(front: string, c: char)
    requires SlugStart(front + [c])
    ensures SlugStart(front) && SlugChar(c) && (front == "" ==> c != '-')
    ensures front != "" ==> SlugChar(front[|front| - 1]) && !(c == '-' && front[|front| - 1] == '-')
  {
    var s := front + [c];
    assert forall i :: 0 <= i < |front| ==> s[i] == front[i];
    assert s[|front|] == c;
    if front != "" { assert s[|front| - 1] == front[|front| - 1]; }
  }

  /** Such a string is its words joined, with at most a dash behind. */
  lemma {:induction false} SlugIsJoined(s: string)
    requires SlugStart(s)
    ensures s == Joined(Words(s)) + (if s != "" && s[|s| - 1] == '-' then "-" else "")
    ensures s != "" ==> Words(s) != []
  {
    if s != "" {
      var front, c := s[..|s| - 1], s[|s| - 1];
      assert s == front + [c];
      SlugStartFront(front, c);
      SlugIsJoined(front);
      JoinedStep(front, c);
      hide Words, Joined, SlugStart;
    }
  }

  /** The slug is the words of the lower-cased basename joined by single dashes, in order; "hive" if there are none. */
  lemma SlugIsWordsJoined(lower: string -> string, dataDir: string)
    ensures var words := Words(lower(Basename(dataDir)));
            Slugify(lower, dataDir) == if words == [] then "hive" else Joined(words)
  {
    var name := lower(Basename(dataDir));
    var bare := TrimStart(name, '.');
    var stub := Stub(name);
    WordsOfTrimStart(name, '.');
    WordsOfDashed(bare);
    WordsOfTrimStart(Dashed(bare), '-');
    WordsOfTrimEnd(TrimStart(Dashed(bare), '-'), '-');
    SlugifyIsSlug(lower, dataDir);
    assert Words(stub) == Words(name);
    if stub != "" { SlugIsJoined(stub); }
    hide Stub, Dashed, TrimStart, TrimEnd;
  }

  // ---- the basename ----

  function Slashes(k: nat): string {
    if k == 0 then "" else Slashes(k - 1) + "/"
  }

  lemma {:induction false} SlashesTrimmed(s: string, k: nat)
    requires s != "" && s[|s| - 1] != '/'
    ensures TrimEnd(s + Slashes(k), '/') == s
  {
    if k == 0 {
      assert s + Slashes(0) == s;
    } else {
      SlashesTrimmed(s, k - 1);
      var all := s + Slashes(k);
      assert all[..|all| - 1] == s + Slashes(k - 1);
    }
  }

  lemma {:induction false} LastSegmentAfter(dir: string, name: string)
    requires '/' !in name && (dir == "" || dir[|dir| - 1] == '/')
    ensures LastSegment(dir + name) == name
  {
    if name == "" {
      assert dir + name == dir;
    } else {
      LastSegmentAfter(dir, name[..|name| - 1]);
      assert (dir + name)[..|dir + name| - 1] == dir + name[..|name| - 1];
      assert name[|name| - 1] in name;
    }
  }

  /** The basename is the last name of the path, whatever directory it is in and however many slashes follow. */
  lemma BasenameIsLastName(dir: string, name: string, k: nat)
    requires name != "" && '/' !in name && (dir == "" || dir[|dir| - 1] == '/')
    ensures Basename(dir + name + Slashes(k)) == name
  {
    assert name[|name| - 1] in name;
    SlashesTrimmed(dir + name, k);
    LastSegmentAfter(dir, name);
  }
}
