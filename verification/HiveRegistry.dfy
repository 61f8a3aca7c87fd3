/** The hive-id registry and the deep-link parser of electron-app/src/main.ts. */
module HiveRegistry {
  import opened Wrappers
  import opened HiveSlug

  // ---- candidate ids ----

  function Digits(n: nat): (s: string)
    ensures s != "" && forall i :: 0 <= i < |s| ==> '0' <= s[i] <= '9'
  {
    if n < 10 then ['0' + n as char] else Digits(n / 10) + ['0' + (n % 10) as char]
  }

  lemma {:induction false} DigitsInjective(m: nat, n: nat)
    requires Digits(m) == Digits(n)
    ensures m == n
  {
    var a, b := Digits(m), Digits(n);
    assert a[|a| - 1] == b[|b| - 1];
    if m >= 10 && n >= 10 {
      assert a[..|a| - 1] == Digits(m / 10) && b[..|b| - 1] == Digits(n / 10);
      DigitsInjective(m / 10, n / 10);
    }
  }

  /** The n-th id tried for a stub: the stub itself, then `-2`, `-3`, and so on. */
  function Candidate(base: string, n: nat): string {
    if n <= 1 then base else base + "-" + Digits(n)
  }

  lemma CandidatesDiffer(base: string, m: nat, n: nat)
    requires 1 <= m < n
    ensures Candidate(base, m) != Candidate(base, n)
  {
    if m >= 2 && Candidate(base, m) == Candidate(base, n) {
      assert Candidate(base, m)[|base| + 1..] == Digits(m);
      assert Candidate(base, n)[|base| + 1..] == Digits(n);
      DigitsInjective(m, n);
    }
  }

  ghost function Tried(base: string, n: nat): set<string> {
    set m | 1 <= m < n :: Candidate(base, m)
  }

  lemma TriedGrows(base: string, n: nat)
    requires n >= 1
    ensures Tried(base, n + 1) == Tried(base, n) + {Candidate(base, n)} && Candidate(base, n) !in Tried(base, n)
  {
    forall m | 1 <= m < n ensures Candidate(base, m) != Candidate(base, n) { CandidatesDiffer(base, m, n); }
    forall id ensures id in Tried(base, n + 1) <==> id in Tried(base, n) || id == Candidate(base, n) {
      if id in Tried(base, n + 1) {
        var m :| 1 <= m < n + 1 && id == Candidate(base, m);
        if m < n { assert id in Tried(base, n); }
      }
    }
  }

  /** The first free candidate. The search ends because candidates are pairwise distinct and only
      finitely many ids are taken. */
  ghost function FirstFree(base: string, taken: set<string>, n: nat): (k: nat)
    requires n >= 1
    ensures k >= n && Candidate(base, k) !in taken
    ensures forall m :: n <= m < k ==> Candidate(base, m) in taken
    decreases taken - Tried(base, n)
  {
    if Candidate(base, n) !in taken then n
    else
      TriedGrows(base, n);
      FirstFree(base, taken, n + 1)
  }

  // ---- the registry ----

  /** The registry after asking for a directory's id: an empty id counts as none. */
  ghost function Issue(lower: string -> string, ids: map<string, string>, dataDir: string): map<string, string> {
    if dataDir in ids && ids[dataDir] != "" then ids
    else
      var base := Slugify(lower, dataDir);
      ids[dataDir := Candidate(base, FirstFree(base, ids.Values, 1))]
  }

  class Settings {
    var hiveIds: map<string, string>

    constructor (ids: map<string, string>)
      ensures hiveIds == ids
    {
      hiveIds := ids;
    }

    /** `ensureHiveId`. */
    method EnsureHiveId(lower: string -> string, dataDir: string) returns (id: string)
      modifies this
      ensures hiveIds == Issue(lower, old(hiveIds), dataDir)
      ensures dataDir in hiveIds && id == hiveIds[dataDir]
    {
      if dataDir in hiveIds && hiveIds[dataDir] != "" {
        return hiveIds[dataDir];
      }
      var taken := hiveIds.Values;
      var base := Slugify(lower, dataDir);
      id := base;
      var n := 2;
      while id in taken
        invariant n >= 2 && id == Candidate(base, n - 1) && hiveIds == old(hiveIds)
        invariant FirstFree(base, taken, 1) == FirstFree(base, taken, n - 1)
        decreases taken - Tried(base, n - 1)
      {
        TriedGrows(base, n - 1);
        id := base + "-" + Digits(n);
        n := n + 1;
      }
      assert FirstFree(base, taken, n - 1) == n - 1;
      hiveIds := hiveIds[dataDir := id];
    }

    /** `resolveHiveId`: some directory with that id. */
    method ResolveHiveId(id: string) returns (r: Option<string>)
      ensures Resolves(hiveIds, id, r)
    {
      var dirs := hiveIds.Keys;
      while dirs != {}
        invariant dirs <= hiveIds.Keys
        invariant forall d :: d in hiveIds && hiveIds[d] == id ==> d in dirs
        decreases dirs
      {
        var dir :| dir in dirs;
        if hiveIds[dir] == id { return Some(dir); }
        dirs := dirs - {dir};
      }
      return None;
    }
  }

  /** The answer names a directory with that id, or there is none. */
  predicate Resolves(ids: map<string, string>, id: string, r: Option<string>) {
    match r
    case Some(d) => d in ids && ids[d] == id
    case None => id !in ids.Values
  }

  /** No two directories share an id, and every id is a slug, possibly numbered. */
  ghost predicate Injective(ids: map<string, string>) {
    forall d, e :: d in ids && e in ids && ids[d] == ids[e] ==> d == e
  }

  /** What the registry can issue: a slug, or a slug and a number. */
  ghost predicate Issuable(id: string) {
    exists base, n :: IsSlug(base) && id == Candidate(base, n)
  }

  /** Asking once: the id is new to the registry, issuable, and nobody else's id changes. */
  lemma IssueKeeps(lower: string -> string, ids: map<string, string>, dataDir: string)
    requires Injective(ids)
    ensures var after := Issue(lower, ids, dataDir);
            && Injective(after)
            && after.Keys == ids.Keys + {dataDir}
            && (forall d :: d in ids && ids[d] != "" ==> after[d] == ids[d])
            && ((dataDir in ids && ids[dataDir] != "") || Issuable(after[dataDir]))
  {
    var base := Slugify(lower, dataDir);
    SlugifyIsSlug(lower, dataDir);
    var id := Candidate(base, FirstFree(base, ids.Values, 1));
    assert forall d :: d in ids ==> ids[d] in ids.Values;
  }

  ghost function IssueAll(lower: string -> string, ids: map<string, string>, dirs: seq<string>): map<string, string> {
    if dirs == [] then ids
    else Issue(lower, IssueAll(lower, ids, dirs[..|dirs| - 1]), dirs[|dirs| - 1])
  }

  /** Over any sequence of requests the registry stays injective and non-empty, no issued id ever changes,
      and every directory asked for has an id. */
  lemma {:induction false} RegistryIsStable(lower: string -> string, ids: map<string, string>, dirs: seq<string>)
    requires Injective(ids) && forall d :: d in ids ==> ids[d] != ""
    ensures var after := IssueAll(lower, ids, dirs);
            && Injective(after)
            && (forall d :: d in after ==> after[d] != "")
            && (forall d :: d in ids ==> d in after && after[d] == ids[d])
            && (forall d :: d in dirs ==> d in after)
            && (forall d :: d in after && d !in ids ==> d in dirs && Issuable(after[d]))
  {
    if dirs != [] {
      var front, last := dirs[..|dirs| - 1], dirs[|dirs| - 1];
      RegistryIsStable(lower, ids, front);
      var before := IssueAll(lower, ids, front);
      IssueKeeps(lower, before, last);
      IssuableIsOpaque(IssueAll(lower, ids, dirs)[last]);
      assert forall d :: d in dirs <==> d in front || d == last by { assert dirs == front + [last]; }
    }
  }

  /** The number a decimal numeral stands for. */
  function Value(s: string): int {
    if s == "" then 0 else 10 * Value(s[..|s| - 1]) + (s[|s| - 1] as int - '0' as int)
  }

  predicate IsDecimal(s: string, n: nat) {
    && s != "" && (forall i :: 0 <= i < |s| ==> '0' <= s[i] <= '9')
    && (|s| > 1 ==> s[0] != '0') && Value(s) == n
  }

  lemma {:induction false} DigitsAreDecimal(n: nat)
    ensures IsDecimal(Digits(n), n) && (n > 0 ==> Digits(n)[0] != '0')
  {
    if n >= 10 {
      DigitsAreDecimal(n / 10);
      var front := Digits(n / 10);
      assert Digits(n)[..|Digits(n)| - 1] == front;
    } else {
      assert Digits(n)[..0] == "";
    }
  }

  /** The first candidate is the slug; later ones carry their number in decimal behind a dash. */
  predicate IsNumbered(id: string, slug: string, n: nat) {
    if n == 1 then id == slug
    else |id| > |slug| && id[..|slug| + 1] == slug + "-" && IsDecimal(id[|slug| + 1..], n)
  }

  ghost predicate NumberTaken(ids: map<string, string>, slug: string, n: nat) {
    exists id :: id in ids.Values && IsNumbered(id, slug, n)
  }

  lemma CandidateIsNumbered(slug: string, n: nat)
    requires n >= 1
    ensures IsNumbered(Candidate(slug, n), slug, n)
  {
    if n > 1 {
      DigitsAreDecimal(n);
      assert Candidate(slug, n)[|slug| + 1..] == Digits(n);
    }
  }

  /** A directory that has no id gets its own slug with the least number that is free. */
  lemma IssuedIsOwnSlug(lower: string -> string, ids: map<string, string>, dataDir: string) returns (n: nat)
    requires dataDir !in ids || ids[dataDir] == ""
    ensures var after, slug := Issue(lower, ids, dataDir), Slugify(lower, dataDir);
            && dataDir in after && n >= 1 && IsNumbered(after[dataDir], slug, n)
            && after[dataDir] !in ids.Values
            && (forall m :: 1 <= m < n ==> NumberTaken(ids, slug, m))
            && (forall d :: d in ids && d != dataDir ==> d in after && after[d] == ids[d])
  {
    var slug := Slugify(lower, dataDir);
    n := FirstFree(slug, ids.Values, 1);
    CandidateIsNumbered(slug, n);
    forall m | 1 <= m < n ensures NumberTaken(ids, slug, m) {
      CandidateIsNumbered(slug, m);
      assert Candidate(slug, m) in ids.Values;
    }
    hide IsNumbered, Slugify;
  }

  /** Every id that can be issued is non-empty and holds no slash, so a link can carry it. */
  lemma IssuableIsOpaque(id: string)
    ensures Issuable(id) ==> id != "" && '/' !in id
  {
    if Issuable(id) {
      var base, n :| IsSlug(base) && id == Candidate(base, n);
      assert forall i :: 0 <= i < |base| ==> base[i] != '/';
    }
  }

  /** After any sequence of requests, resolving the id of a directory asked for gives that directory back. */
  lemma ResolveIsInverse(lower: string -> string, ids: map<string, string>, dirs: seq<string>, d: string,
                         r: Option<string>)
    requires Injective(ids) && (forall e :: e in ids ==> ids[e] != "") && d in dirs
    requires var after := IssueAll(lower, ids, dirs); d in after ==> Resolves(after, after[d], r)
    ensures r == Some(d)
  {
    RegistryIsStable(lower, ids, dirs);
  }

  // ---- deep links ----

  const SCHEME := "openhive://"

  predicate LineTerminator(c: char) {
    c == '\n' || c == '\r' || c == '\U{2028}' || c == '\U{2029}'
  }

  predicate OneLine(s: string) {
    forall i :: 0 <= i < |s| ==> !LineTerminator(s[i])
  }

  /** The first slash, or the length. */
  function IndexOfSlash(s: string): (i: nat)
    ensures i <= |s| && (i < |s| ==> s[i] == '/') && forall j :: 0 <= j < i ==> s[j] != '/'
  {
    if s == "" || s[0] == '/' then 0 else IndexOfSlash(s[1..]) + 1
  }

  datatype Link = Link(hiveId: Option<string>, forward: string)

  /** `parseDeepLink`: the hive id is the longest slash-free run after `h/`, and the rest must be one line. */
  function ParseDeepLink(url: string): Link {
    var rest := if |url| >= |SCHEME| then url[|SCHEME|..] else "";
    if |rest| < 2 || rest[..2] != "h/" then Link(None, url)
    else
      var tail := rest[2..];
      var i := IndexOfSlash(tail);
      if i == 0 then Link(None, url)
      else if i == |tail| then Link(Some(tail), SCHEME)
      else if OneLine(tail[i + 1..]) then Link(Some(tail[..i]), SCHEME + tail[i + 1..])
      else Link(None, url)
  }

  /** What the pattern means: an id without slashes, optionally followed by a one-line route. */
  ghost predicate Targets(rest: string, id: string, route: Option<string>) {
    && id != "" && '/' !in id
    && match route
       case None => rest == "h/" + id
       case Some(path) => OneLine(path) && rest == "h/" + id + "/" + path
  }

  lemma {:induction false} SlashAfter(id: string, path: string)
    requires '/' !in id
    ensures IndexOfSlash(id) == |id| && IndexOfSlash(id + "/" + path) == |id|
  {
    if id != "" {
      assert (id + "/" + path)[1..] == id[1..] + "/" + path;
      SlashAfter(id[1..], path);
    }
  }

  /** The parser answers with an id exactly when the link has that form, and then with that id and route;
      any other link is forwarded as it came. */
  lemma ParseDeepLinkExactly(rest: string, id: string, route: Option<string>)
    requires Targets(rest, id, route)
    ensures ParseDeepLink(SCHEME + rest) == Link(Some(id), SCHEME + if route.Some? then route.value else "")
  {
    var url := SCHEME + rest;
    assert url[|SCHEME|..] == rest && rest[..2] == "h/";
    match route
    case None =>
      SlashAfter(id, "");
      assert rest[2..] == id;
    case Some(path) =>
      SlashAfter(id, path);
      assert rest[2..] == id + "/" + path;
      assert rest[2..][..|id|] == id && rest[2..][|id| + 1..] == path;
  }

  lemma OnlyTargetsHaveIds(rest: string)
    ensures var link := ParseDeepLink(SCHEME + rest);
            && (link.hiveId.Some? <==> exists id, route :: Targets(rest, id, route))
            && (link.hiveId.None? ==> link.forward == SCHEME + rest)
  {
    var link := ParseDeepLink(SCHEME + rest);
    assert (SCHEME + rest)[|SCHEME|..] == rest;
    if link.hiveId.Some? {
      var route := TargetParsed(rest);
    }
    if id, route :| Targets(rest, id, route) {
      ParseDeepLinkExactly(rest, id, route);
    }
  }

  lemma {:induction false} TargetParsed(rest: string) returns (route: Option<string>)
    requires ParseDeepLink(SCHEME + rest).hiveId.Some?
    ensures Targets(rest, ParseDeepLink(SCHEME + rest).hiveId.value, route)
  {
    assert (SCHEME + rest)[|SCHEME|..] == rest;
    var tail := rest[2..];
    var i := IndexOfSlash(tail);
    if i == |tail| {
      route := None;
      assert rest == "h/" + tail;
    } else {
      route := Some(tail[i + 1..]);
      SplitAtSlash(rest, i);
    }
  }

  lemma SplitAtSlash(rest: string, i: nat)
    requires |rest| >= 2 && rest[..2] == "h/" && i < |rest[2..]| && rest[2..][i] == '/'
    ensures rest == "h/" + rest[2..][..i] + "/" + rest[2..][i + 1..]
  {}

  /** Round trip: the link built for any id the registry issues and any one-line route parses back to both. */
  lemma DeepLinkRoundTrip(id: string, route: string)
    requires Issuable(id) && OneLine(route)
    ensures ParseDeepLink(SCHEME + ("h/" + id + "/" + route)) == Link(Some(id), SCHEME + route)
  {
    IssuableIsOpaque(id);
    ParseDeepLinkExactly("h/" + id + "/" + route, id, Some(route));
  }
}
