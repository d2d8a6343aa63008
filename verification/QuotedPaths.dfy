/** Paths that Git quotes: what the diff header's reader makes of them. */
module QuotedPaths {
  import opened Basics
  import opened DiffText

  /** A character as it stands between quotes. */
  function Quoted(c: char): string {
    match c
    case '\t' => "\\t"
    case '\n' => "\\n"
    case '\r' => "\\r"
    case '\\' => "\\\\"
    case '"' => "\\\""
    case _ => [c]
  }

  function QuotePath(path: string): string {
    if path == [] then [] else Quoted(path[0]) + QuotePath(path[1..])
  }

  function QuotedHeaderLine(path: string): string {
    "diff --git " + QuotedRest(QuotePath(path))
  }

  function QuotedRest(q: string): string {
    "\"a/" + q + "\" \"b/" + q + "\""
  }

  /** Unescaping takes the quoting back. */
  lemma {:induction false} UnescapeQuoted(path: string, rest: string)
    ensures UnescapeGitPath(QuotePath(path) + rest) == path + UnescapeGitPath(rest)
  {
    hide Quoted, UnescapeGitPath;
    if path == [] {
      assert [] + rest == rest && path + UnescapeGitPath(rest) == UnescapeGitPath(rest);
    } else {
      var q := QuotePath(path[1..]) + rest;
      UnescapeQuoted(path[1..], rest);
      Associates(Quoted(path[0]), QuotePath(path[1..]), rest);
      UnescapeOne(path[0], q);
      assert path == [path[0]] + path[1..];
      Associates([path[0]], path[1..], UnescapeGitPath(rest));
    }
  }

  lemma UnescapeOne(c: char, rest: string)
    ensures UnescapeGitPath(Quoted(c) + rest) == [c] + UnescapeGitPath(rest)
  {
    var s := Quoted(c) + rest;
    assert s[|Quoted(c)|..] == rest;
  }

  // ----- where " b/" and quotes stand in a quoted path

  lemma HeadOfQuoted(path: string, c: char)
    requires QuotePath(path) != [] && QuotePath(path)[0] == c && c != '\\'
    ensures path != [] && path[0] == c && QuotePath(path)[1..] == QuotePath(path[1..])
  {
  }

  lemma {:induction false} QuotedAt(path: string, k: nat) returns (j: nat)
    requires At(QuotePath(path), " b/", k)
    ensures At(path, " b/", j) && QuotePath(path)[k + 3..] == QuotePath(path[j + 3..])
    decreases |path|
  {
    var n := |Quoted(path[0])|;
    if k < n {
      j := 0;
      QuotedHere(path, k);
    } else {
      QuotedLater(path, k);
      var i := QuotedAt(path[1..], k - n);
      j := i + 1;
      OneLater(path, i);
    }
  }

  lemma QuotedHere(path: string, k: nat)
    requires At(QuotePath(path), " b/", k) && path != [] && k < |Quoted(path[0])|
    ensures At(path, " b/", 0) && QuotePath(path)[k + 3..] == QuotePath(path[3..])
  {
    var q := QuotePath(path);
    AtThree(q, " b/", k);
    SpaceIsPlain(path, k);
    hide *;
    var p1, q1 := path[1..], q[1..];
    HeadOfQuoted(path, ' ');
    var p2, q2 := p1[1..], q1[1..];
    HeadOfQuoted(p1, 'b');
    HeadOfQuoted(p2, '/');
    DropThree(path);
    DropThree(q);
    AtThree(path, " b/", 0);
  }

  lemma SpaceIsPlain(path: string, k: nat)
    requires path != [] && k < |Quoted(path[0])| && QuotePath(path)[k] == ' '
    ensures k == 0 && path[0] == ' '
  {
    QuotedFirst(path, k);
    hide QuotePath;
    QuotedSpace(path[0], k);
  }

  lemma QuotedFirst(path: string, k: nat)
    requires path != [] && k < |Quoted(path[0])|
    ensures k < |QuotePath(path)| && QuotePath(path)[k] == Quoted(path[0])[k]
  {
    hide Quoted;
  }

  lemma QuotedSpace(c: char, k: nat)
    requires k < |Quoted(c)| && Quoted(c)[k] == ' '
    ensures k == 0 && c == ' '
  {
  }

  lemma DropThree(s: string)
    requires |s| >= 3
    ensures s[1..][1..][1..] == s[3..] && s[1..][0] == s[1] && s[1..][1..][0] == s[2]
  {
  }

  lemma QuotedLater(path: string, k: nat)
    requires path != [] && |Quoted(path[0])| <= k && At(QuotePath(path), " b/", k)
    ensures var n := |Quoted(path[0])|; var q, rest := QuotePath(path), QuotePath(path[1..]);
      At(rest, " b/", k - n) && k + 3 <= |q| && q[k + 3..] == rest[k - n + 3..]
  {
    var first, rest := Quoted(path[0]), QuotePath(path[1..]);
    assert QuotePath(path) == first + rest;
    hide *;
    LaterPart(first, rest, k);
  }

  lemma LaterPart(a: string, b: string, k: nat)
    requires |a| <= k && At(a + b, " b/", k)
    ensures At(b, " b/", k - |a|) && k + 3 <= |a + b| && (a + b)[k + 3..] == b[k - |a| + 3..]
  {
    assert (a + b)[k..k + 3] == b[k - |a|..k - |a| + 3];
  }

  lemma OneLater(path: string, i: nat)
    requires path != [] && At(path[1..], " b/", i)
    ensures At(path, " b/", i + 1) && path[1..][i + 3..] == path[i + 1 + 3..]
  {
    assert path[i + 1..i + 4] == path[1..][i..i + 3];
  }

  lemma {:induction false} QuoteConcat(a: string, b: string)
    ensures QuotePath(a + b) == QuotePath(a) + QuotePath(b)
  {
    hide Quoted;
    if a == [] {
      assert a + b == b;
    } else {
      QuoteConcat(a[1..], b);
      TailOfConcat(a, b);
      Associates(Quoted(a[0]), QuotePath(a[1..]), QuotePath(b));
    }
  }

  lemma AtInQuoted(path: string, j: nat) returns (k: nat)
    requires At(path, " b/", j)
    ensures At(QuotePath(path), " b/", k)
  {
    var front, back := path[..j], path[j + 3..];
    k := |QuotePath(front)|;
    assert path == front + (" b/" + back);
    QuoteConcat(front, " b/" + back);
    QuoteConcat(" b/", back);
    PlainQuoted();
    var q := QuotePath(path);
    assert q == QuotePath(front) + (" b/" + QuotePath(back));
    assert q[k..k + 3] == " b/";
  }

  lemma PlainQuoted()
    ensures QuotePath(" b/") == " b/"
  {
    hide QuotePath;
    assert " b/"[1..] == "b/" && "b/"[1..] == "/" && "/"[1..] == "";
    PlainFirst(" b/");
    PlainFirst("b/");
    PlainFirst("/");
    assert QuotePath("") == "" by { NothingQuoted(); }
  }

  lemma NothingQuoted()
    ensures QuotePath("") == ""
  {
  }

  lemma PlainFirst(s: string)
    requires s != "" && (s[0] == ' ' || s[0] == 'b' || s[0] == '/')
    ensures QuotePath(s) == [s[0]] + QuotePath(s[1..])
  {
  }

  /** A quote in it always follows a backslash. */
  lemma {:induction false} NoBareQuote(path: string, k: nat)
    requires k < |QuotePath(path)| && QuotePath(path)[k] == '"'
    ensures k > 0 && QuotePath(path)[k - 1] == '\\'
    decreases |path|
  {
    var n := |Quoted(path[0])|;
    if k >= n {
      NoBareQuote(path[1..], k - n);
    }
  }

  // ----- the header

  /** The header's characters around its two paths. */
  function RestChar(q: string, j: nat): char
    requires j < 9 + 2 * |q|
  {
    var n := |q|;
    if j < 3 then "\"a/"[j]
    else if j < 3 + n then q[j - 3]
    else if j < 8 + n then "\" \"b/"[j - 3 - n]
    else if j < 8 + 2 * n then q[j - 8 - n]
    else '"'
  }

  lemma RestLength(q: string)
    ensures |QuotedRest(q)| == 9 + 2 * |q|
  {
  }

  lemma RestCharIs(q: string, j: nat)
    requires j < 9 + 2 * |q|
    ensures |QuotedRest(q)| == 9 + 2 * |q| && QuotedRest(q)[j] == RestChar(q, j)
  {
  }

  /** " b/" stands in a quoted header only within one of its two paths. */
  lemma SlashesInRest(q: string, j: nat)
    ensures var r, n := QuotedRest(q), |q|;
      At(r, " b/", j) <==> (3 <= j && At(q, " b/", j - 3)) || (8 + n <= j && At(q, " b/", j - 8 - n))
  {
    var r, n := QuotedRest(q), |q|;
    RestLength(q);
    AtThree(r, " b/", j);
    hide QuotedRest, At;
    if 3 <= j {
      AtThree(q, " b/", j - 3);
    }
    if 8 + n <= j {
      AtThree(q, " b/", j - 8 - n);
    }
    if j + 2 < |r| {
      RestCharIs(q, j);
      RestCharIs(q, j + 1);
      RestCharIs(q, j + 2);
    }
  }

  predicate AtQuote(s: string, j: nat) {
    j + 4 <= |s| && s[j] == ' ' && s[j + 1] == '"' && s[j + 2] == 'b' && s[j + 3] == '/'
  }

  lemma AtFour(s: string, j: nat)
    ensures At(s, " \"b/", j) <==> AtQuote(s, j)
  {
    if j + 4 <= |s| {
      var t := s[j..j + 4];
      assert t == [t[0], t[1], t[2], t[3]];
      assert t[0] == s[j] && t[1] == s[j + 1] && t[2] == s[j + 2] && t[3] == s[j + 3];
    }
  }

  /** The quote that opens the second path is the last one after a space. */
  lemma LastQuote(path: string)
    ensures var q := QuotePath(path); var r := QuotedRest(q);
      FindLast(r, " \"b/", |r|) == Some(|q| + 4)
  {
    var q := QuotePath(path);
    var r, n := QuotedRest(q), |q|;
    RestLength(q);
    hide QuotedRest, QuotePath;
    QuoteHere(path, n + 4);
    forall j | n + 4 < j < |r| ensures !At(r, " \"b/", j) {
      QuoteHere(path, j);
    }
    hide At;
    LastIs(r, " \"b/", |r|, n + 4);
  }

  lemma QuoteHere(path: string, j: nat)
    requires |QuotePath(path)| + 4 <= j
    ensures At(QuotedRest(QuotePath(path)), " \"b/", j) <==> j == |QuotePath(path)| + 4
  {
    var q := QuotePath(path);
    var n := |q|;
    AtFour(QuotedRest(q), j);
    RestLength(q);
    hide At, QuotedRest, QuotePath;
    if j + 4 <= 9 + 2 * n {
      RestCharIs(q, j);
      RestCharIs(q, j + 1);
      RestCharIs(q, j + 2);
      RestCharIs(q, j + 3);
      if 8 + n <= j && j + 1 < 8 + 2 * n && q[j + 1 - 8 - n] == '"' {
        NoBareQuote(path, j + 1 - 8 - n);
      }
    }
  }

  lemma RestEnds(q: string, k: nat)
    requires k <= |q|
    ensures |QuotedRest(q)| == 2 * |q| + 9 && QuotedRest(q)[8 + |q| + k..] == q[k..] + "\""
  {
  }

  /** A quoted path is read back exactly when it does not hold " b/". */
  lemma QuotedPathRoundTrip(path: string)
    ensures ParseDiffHeaderPath(QuotedHeaderLine(path)) == Some(path) <==> !Contains(path, " b/")
  {
    var r := QuotedRest(QuotePath(path));
    assert StripPrefix(QuotedHeaderLine(path), "diff --git ") == Some(r);
    hide At, QuotedRest, QuotePath, FindLast, QuotedHeaderLine, UnescapeGitPath;
    if Contains(path, " b/") {
      ReadsLess(path);
    } else {
      NoSlashInRest(path);
      LastQuote(path);
      ReadsQuoted(path);
    }
  }

  lemma NoSlashInRest(path: string)
    requires !Contains(path, " b/")
    ensures FindLast(QuotedRest(QuotePath(path)), " b/", |QuotedRest(QuotePath(path))|).None?
  {
    hide At, QuotedRest, QuotePath;
    var q := QuotePath(path);
    var r := QuotedRest(q);
    forall j: nat ensures !At(r, " b/", j) {
      SlashesInRest(q, j);
      if k: nat :| At(q, " b/", k) {
        var i := QuotedAt(path, k);
      }
    }
  }

  lemma ReadsQuoted(path: string)
    ensures var q := QuotePath(path);
      && |QuotedRest(q)| == 2 * |q| + 9 && QuotedRest(q)[|q| + 8..] == q + "\""
      && StripSuffixChar(q + "\"", '"') == q && UnescapeGitPath(q) == path
  {
    var q := QuotePath(path);
    hide QuotedRest, QuotePath, UnescapeGitPath;
    RestEnds(q, 0);
    assert QuotedRest(q)[|q| + 8..] == q + "\"";
    assert StripSuffixChar(q + "\"", '"') == q;
    UnescapeQuoted(path, "");
    assert q + "" == q && path + UnescapeGitPath("") == path by { NothingUnescaped(); }
  }

  lemma NothingUnescaped()
    ensures UnescapeGitPath("") == "" && UnescapeGitPath("\"") == "\""
  {
    assert "\""[1..] == "";
  }

  /** Read back is at most what follows " b/" in the path, and the quote that closes it. */
  lemma ReadsLess(path: string)
    requires Contains(path, " b/")
    ensures ParseDiffHeaderPath(QuotedHeaderLine(path)) != Some(path)
  {
    var r := QuotedRest(QuotePath(path));
    assert StripPrefix(QuotedHeaderLine(path), "diff --git ") == Some(r);
    var last, j := LastInSecond(path);
    hide At, QuotedRest, QuotePath, QuotedHeaderLine, UnescapeGitPath, FindLast;
    UnescapeQuoted(path[j + 3..], "\"");
    NothingUnescaped();
  }

  lemma LastInSecond(path: string) returns (last: nat, j: nat)
    requires Contains(path, " b/")
    ensures j + 3 <= |path|
    ensures var r := QuotedRest(QuotePath(path));
      && FindLast(r, " b/", |r|) == Some(last) && last + 3 <= |r|
      && r[last + 3..] == QuotePath(path[j + 3..]) + "\""
  {
    hide *;
    var r := QuotedRest(QuotePath(path));
    var k := SecondPlace(path);
    last := LastFrom(r, k);
    j := TakenFromSecond(path, last);
  }

  lemma SecondPlace(path: string) returns (k: nat)
    requires Contains(path, " b/")
    ensures At(QuotedRest(QuotePath(path)), " b/", k) && 8 + |QuotePath(path)| <= k
  {
    hide At, QuotedRest, QuotePath;
    var i: nat :| At(path, " b/", i);
    var m := AtInQuoted(path, i);
    k := 8 + |QuotePath(path)| + m;
    SlashesInRest(QuotePath(path), k);
  }

  lemma LastFrom(r: string, k: nat) returns (last: nat)
    requires At(r, " b/", k)
    ensures FindLast(r, " b/", |r|) == Some(last) && k <= last && last + 3 <= |r| && At(r, " b/", last)
  {
    InBounds(r, k);
    hide At;
    last := FindLast(r, " b/", |r|).value;
  }

  lemma TakenFromSecond(path: string, last: nat) returns (j: nat)
    requires At(QuotedRest(QuotePath(path)), " b/", last) && 8 + |QuotePath(path)| <= last
    ensures j + 3 <= |path| && last + 3 <= |QuotedRest(QuotePath(path))|
    ensures QuotedRest(QuotePath(path))[last + 3..] == QuotePath(path[j + 3..]) + "\""
  {
    hide QuotedRest, QuotePath, At;
    var q := QuotePath(path);
    var m := last - 8 - |q|;
    SlashesInRest(q, last);
    NotInFirst(q, last);
    InBounds(QuotedRest(q), last);
    InBounds(q, m);
    j := QuotedAt(path, m);
    InBounds(path, j);
    RestEndsAt(q, m + 3, last + 3);
  }

  lemma RestEndsAt(q: string, k: nat, at: nat)
    requires k <= |q| && at == 8 + |q| + k
    ensures at <= |QuotedRest(q)| && QuotedRest(q)[at..] == q[k..] + "\""
  {
    RestEnds(q, k);
  }

  lemma InBounds(s: string, i: nat)
    requires At(s, " b/", i)
    ensures i + 3 <= |s|
  {
  }

  lemma NotInFirst(q: string, j: nat)
    requires 8 + |q| <= j
    ensures !At(q, " b/", j - 3)
  {
  }
}
