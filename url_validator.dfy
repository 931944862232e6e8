/** The YouTube URL check shared, character for character, by both download
    backends: `re.match(r'(https?://)?(www\.)?(youtube\.com|youtu\.be)/.+', url)`.

    The regular expression is written out as a small syntax tree, and `re.match`
    is given its meaning: anchored at the start, not at the end, with `.` matching
    any character except a newline and backtracking into optional groups and
    alternatives (all ways of matching are considered). */
module UrlValidator {
  import opened Text

  datatype Regex =
    | Lit(text: string)             // a literal string
    | Opt(body: Regex)              // `( ... )?`
    | Alt(left: Regex, right: Regex)  // `a|b`
    | Cat(first: Regex, second: Regex) // concatenation
    | DotPlus                       // `.+`

  /** The positions at which a match of `r` that starts at position `i` of `u`
      can end. */
  function Ends(r: Regex, u: string, i: nat): (ends: set<nat>)
    requires i <= |u|
    ensures forall j :: j in ends ==> i <= j <= |u|
  {
    match r
    case Lit(t) => if StartsAt(u, i, t) then {i + |t|} else {}
    case Opt(b) => {i} + Ends(b, u, i)
    case Alt(a, b) => Ends(a, u, i) + Ends(b, u, i)
    case Cat(a, b) => set j, k | j in Ends(a, u, i) && k in Ends(b, u, j) :: k
    case DotPlus => set j | i < j <= |u| && NoNewline(u, i, j)
  }

  /** No newline among `u[i..j]`. */
  predicate NoNewline(u: string, i: nat, j: nat)
    requires i <= j <= |u|
  {
    forall k :: i <= k < j ==> u[k] != '\n'
  }

  /** Python's `bool(re.match(r, u))`: some match starts at position 0. */
  predicate ReMatch(r: Regex, u: string)
  {
    Ends(r, u, 0) != {}
  }

  const SchemeRegex: Regex := Opt(Cat(Lit("http"), Cat(Opt(Lit("s")), Lit("://"))))
  const WwwRegex: Regex := Opt(Lit("www."))
  const HostRegex: Regex := Alt(Lit("youtube.com"), Lit("youtu.be"))
  const PrefixRegex: Regex := Cat(Cat(Cat(SchemeRegex, WwwRegex), HostRegex), Lit("/"))
  const YouTubeRegex: Regex := Cat(PrefixRegex, DotPlus)

  /** `validate_youtube_url` of both backends. */
  predicate ValidateYouTubeUrl(u: string)
  {
    ReMatch(YouTubeRegex, u)
  }

  // ---------------------------------------------------------------------------
  // The independent description of the accepted strings.

  const Schemes: set<string> := {"", "http://", "https://"}
  const Subdomains: set<string> := {"", "www."}
  const Hosts: set<string> := {"youtube.com", "youtu.be"}

  /** After the prefix `p` at the start of `u` comes at least one character, and
      it is not a newline. Nothing after that character is constrained. */
  predicate PathFollows(u: string, p: string)
  {
    StartsWith(u, p) && |p| < |u| && u[|p|] != '\n'
  }

  ghost predicate IsAcceptedPrefix(p: string)
  {
    exists s, w, h :: s in Schemes && w in Subdomains && h in Hosts && p == s + w + h + "/"
  }

  /** A scheme (or none), `www.` (or not), one of the two hosts, `/`, then a
      character other than a newline. Matching is case-sensitive. */
  ghost predicate IsYouTubeUrl(u: string)
  {
    exists p :: IsAcceptedPrefix(p) && PathFollows(u, p)
  }

  // ---------------------------------------------------------------------------
  // Languages of the newline-free part of the expression.

  predicate Finite(r: Regex)
  {
    match r
    case Lit(_) => true
    case Opt(b) => Finite(b)
    case Alt(a, b) => Finite(a) && Finite(b)
    case Cat(a, b) => Finite(a) && Finite(b)
    case DotPlus => false
  }

  /** The (finite) set of strings a `DotPlus`-free expression matches. */
  function Lang(r: Regex): set<string>
    requires Finite(r)
  {
    match r
    case Lit(t) => {t}
    case Opt(b) => {""} + Lang(b)
    case Alt(a, b) => Lang(a) + Lang(b)
    case Cat(a, b) => set x, y | x in Lang(a) && y in Lang(b) :: x + y
  }

  lemma StartsAtConcat(u: string, i: nat, x: string, y: string)
    ensures StartsAt(u, i, x + y) <==> StartsAt(u, i, x) && StartsAt(u, i + |x|, y)
  {
    if StartsAt(u, i, x) && StartsAt(u, i + |x|, y) {
      assert u[i..i + |x| + |y|] == u[i..i + |x|] + u[i + |x|..i + |x| + |y|];
    }
    if StartsAt(u, i, x + y) {
      assert u[i..i + |x|] == (x + y)[..|x|];
      assert u[i + |x|..i + |x| + |y|] == (x + y)[|x|..];
    }
  }

  /** The language-level reading of a match of `r` from `i` ending at `k`. */
  ghost predicate EndsAfterWordOf(r: Regex, u: string, i: nat, k: nat)
    requires Finite(r)
  {
    exists x :: x in Lang(r) && StartsAt(u, i, x) && k == i + |x|
  }

  /** A word of `a` followed by a word of `b` is a word of `Cat(a, b)`. */
  lemma CatEndsToWord(a: Regex, b: Regex, u: string, i: nat, j: nat, k: nat)
    requires Finite(a) && Finite(b)
    requires EndsAfterWordOf(a, u, i, j) && EndsAfterWordOf(b, u, j, k)
    ensures EndsAfterWordOf(Cat(a, b), u, i, k)
  {
    var x :| x in Lang(a) && StartsAt(u, i, x) && j == i + |x|;
    var y :| y in Lang(b) && StartsAt(u, j, y) && k == j + |y|;
    StartsAtConcat(u, i, x, y);
    assert StartsAt(u, i, x + y) && k == i + |x + y|;
    assert x + y in Lang(Cat(a, b));
  }

  /** Conversely, a word of each, one after the other, is a match of `Cat(a, b)`. */
  lemma WordToCatEnds(a: Regex, b: Regex, u: string, i: nat, k: nat)
    requires Finite(a) && Finite(b) && i <= |u|
    requires forall j :: i <= j <= |u| && EndsAfterWordOf(a, u, i, j) ==> j in Ends(a, u, i)
    requires forall j :: i <= j <= |u| && EndsAfterWordOf(b, u, j, k) ==> k in Ends(b, u, j)
    requires EndsAfterWordOf(Cat(a, b), u, i, k)
    ensures k in Ends(Cat(a, b), u, i)
  {
    var z :| z in Lang(Cat(a, b)) && StartsAt(u, i, z) && k == i + |z|;
    var x, y :| x in Lang(a) && y in Lang(b) && z == x + y;
    StartsAtConcat(u, i, x, y);
    var j := i + |x|;
    assert |z| == |x| + |y|;
    assert StartsAt(u, i, x) && StartsAt(u, j, y) && k == j + |y|;
    assert EndsAfterWordOf(a, u, i, j);
    assert EndsAfterWordOf(b, u, j, k);
    assert j in Ends(a, u, i) && k in Ends(b, u, j);
  }

  lemma CatEndsFinite(a: Regex, b: Regex, u: string, i: nat, k: nat)
    requires Finite(a) && Finite(b) && i <= |u|
    requires forall j :: i <= j <= |u| ==> (j in Ends(a, u, i) <==> EndsAfterWordOf(a, u, i, j))
    requires forall j :: i <= j <= |u| ==> (k in Ends(b, u, j) <==> EndsAfterWordOf(b, u, j, k))
    ensures k in Ends(Cat(a, b), u, i) <==> EndsAfterWordOf(Cat(a, b), u, i, k)
  {
    if k in Ends(Cat(a, b), u, i) {
      var j :| j in Ends(a, u, i) && k in Ends(b, u, j);
      assert i <= j <= |u|;
      CatEndsToWord(a, b, u, i, j, k);
    }
    if EndsAfterWordOf(Cat(a, b), u, i, k) {
      WordToCatEnds(a, b, u, i, k);
    }
  }

  /** A match of a `DotPlus`-free expression ends exactly after one of the
      strings of its language. */
  lemma {:induction false} EndsFinite(r: Regex, u: string, i: nat, k: nat)
    requires Finite(r) && i <= |u|
    ensures k in Ends(r, u, i) <==> EndsAfterWordOf(r, u, i, k)
    decreases r, 0
  {
    match r
    case Lit(t) =>
      if EndsAfterWordOf(r, u, i, k) {
        var x :| x in Lang(r) && StartsAt(u, i, x) && k == i + |x|;
        assert x == t;
      }
    case Opt(b) =>
      EndsFinite(b, u, i, k);
      if k == i { assert "" in Lang(r) && StartsAt(u, i, ""); }
      if EndsAfterWordOf(r, u, i, k) && k != i {
        var x :| x in Lang(r) && StartsAt(u, i, x) && k == i + |x|;
        assert x in Lang(b);
      }
    case Alt(a, b) =>
      EndsFinite(a, u, i, k);
      EndsFinite(b, u, i, k);
      if EndsAfterWordOf(r, u, i, k) {
        var x :| x in Lang(r) && StartsAt(u, i, x) && k == i + |x|;
        assert x in Lang(a) || x in Lang(b);
      }
    case Cat(a, b) =>
      forall j | i <= j <= |u|
        ensures j in Ends(a, u, i) <==> EndsAfterWordOf(a, u, i, j)
        ensures k in Ends(b, u, j) <==> EndsAfterWordOf(b, u, j, k)
      {
        EndsFinite(a, u, i, j);
        EndsFinite(b, u, j, k);
      }
      CatEndsFinite(a, b, u, i, k);
  }

  /** The languages of the three optional or alternative groups. */
  lemma LangOfGroups()
    ensures Lang(SchemeRegex) == Schemes
    ensures Lang(WwwRegex) == Subdomains
    ensures Lang(HostRegex) == Hosts
  {
    assert Lang(Cat(Opt(Lit("s")), Lit("://"))) == {"://", "s://"} by {
      assert "" + "://" == "://";
      assert "s" + "://" == "s://";
    }
    assert "http" + "://" == "http://";
    assert "http" + "s://" == "https://";
  }

  lemma LangOfPrefix(p: string)
    ensures Finite(PrefixRegex)
    ensures p in Lang(PrefixRegex) <==> IsAcceptedPrefix(p)
  {
    LangOfGroups();
    if p in Lang(PrefixRegex) {
      var swh, sl :| swh in Lang(Cat(Cat(SchemeRegex, WwwRegex), HostRegex)) && sl in {"/"} && p == swh + sl;
      var sw, h :| sw in Lang(Cat(SchemeRegex, WwwRegex)) && h in Hosts && swh == sw + h;
      var s, w :| s in Schemes && w in Subdomains && sw == s + w;
      assert p == s + w + h + "/";
    }
    if IsAcceptedPrefix(p) {
      var s, w, h :| s in Schemes && w in Subdomains && h in Hosts && p == s + w + h + "/";
      assert s + w in Lang(Cat(SchemeRegex, WwwRegex));
      assert s + w + h in Lang(Cat(Cat(SchemeRegex, WwwRegex), HostRegex));
    }
  }

  lemma DotPlusEnds(u: string, j: nat)
    requires j <= |u|
    ensures Ends(DotPlus, u, j) != {} <==> j < |u| && u[j] != '\n'
  {
    if j < |u| && u[j] != '\n' {
      assert j + 1 in Ends(DotPlus, u, j);
    }
  }

  /** The regular expression, under `re.match`, accepts exactly the strings the
      independent description accepts. */
  lemma ValidatorCharacterised(u: string)
    ensures ValidateYouTubeUrl(u) <==> IsYouTubeUrl(u)
  {
    if ValidateYouTubeUrl(u) {
      var k :| k in Ends(YouTubeRegex, u, 0);
      var j :| j in Ends(PrefixRegex, u, 0) && k in Ends(DotPlus, u, j);
      EndsFinite(PrefixRegex, u, 0, j);
      var p :| p in Lang(PrefixRegex) && StartsAt(u, 0, p) && j == |p|;
      LangOfPrefix(p);
      DotPlusEnds(u, j);
      assert PathFollows(u, p);
    }
    if IsYouTubeUrl(u) {
      var p :| IsAcceptedPrefix(p) && PathFollows(u, p);
      LangOfPrefix(p);
      EndsFinite(PrefixRegex, u, 0, |p|);
      DotPlusEnds(u, |p|);
      var k :| k in Ends(DotPlus, u, |p|);
      assert k in Ends(YouTubeRegex, u, 0);
    }
  }

  // ---------------------------------------------------------------------------
  // Consequences for particular inputs.

  /** Every accepted prefix starts with `h`, `w` or `y` (lower case). */
  lemma AcceptedPrefixStart(p: string)
    requires IsAcceptedPrefix(p)
    ensures |p| > 0 && (p[0] == 'h' || p[0] == 'w' || p[0] == 'y')
  {
    var s, w, h :| s in Schemes && w in Subdomains && h in Hosts && p == s + w + h + "/";
    if s != "" {
      assert p[0] == s[0];
    } else if w != "" {
      assert p[0] == w[0];
    } else {
      assert p[0] == h[0];
    }
  }

  /** A string whose first character is none of `h`, `w`, `y` is rejected; in
      particular matching is case-sensitive. */
  lemma RejectsOtherFirstCharacter(u: string)
    requires u == [] || (u[0] != 'h' && u[0] != 'w' && u[0] != 'y')
    ensures !ValidateYouTubeUrl(u)
  {
    ValidatorCharacterised(u);
    forall p | IsAcceptedPrefix(p)
      ensures !PathFollows(u, p)
    {
      AcceptedPrefixStart(p);
    }
  }

  lemma RejectsExamples()
    ensures !ValidateYouTubeUrl("not a url")
    ensures !ValidateYouTubeUrl("HTTPS://WWW.YOUTUBE.COM/watch?v=abc123")
    ensures !ValidateYouTubeUrl("")
  {
    RejectsOtherFirstCharacter("not a url");
    RejectsOtherFirstCharacter("HTTPS://WWW.YOUTUBE.COM/watch?v=abc123");
    RejectsOtherFirstCharacter("");
  }

  /** Accepted: any scheme/`www.`/host combination followed by `/` and one
      non-newline character, whatever comes after it. */
  lemma AcceptsAfterPrefix(s: string, w: string, h: string, c: char, rest: string)
    requires s in Schemes && w in Subdomains && h in Hosts && c != '\n'
    ensures ValidateYouTubeUrl(s + w + h + "/" + [c] + rest)
  {
    var p := s + w + h + "/";
    var u := p + [c] + rest;
    assert u[..|p|] == p && u[|p|] == c;
    assert IsAcceptedPrefix(p);
    assert PathFollows(u, p);
    ValidatorCharacterised(u);
  }

  /** The example URL of the request model. */
  lemma AcceptsWatchUrl()
    ensures ValidateYouTubeUrl("https://www.youtube.com/watch?v=dQw4w9WgXcQ")
  {
    var u := "https://www.youtube.com/watch?v=dQw4w9WgXcQ";
    var p := "https://www.youtube.com/";
    assert "https://" + "www." + "youtube.com" + "/" == p;
    assert IsAcceptedPrefix(p);
    assert u[..|p|] == p && u[|p|] == 'w';
    assert PathFollows(u, p);
    ValidatorCharacterised(u);
  }

  /** A short link with neither scheme nor `www.`; and a URL whose path is a
      slash followed by a newline: only the character right after the host's
      `/` is constrained, since the match need not reach the end. */
  lemma AcceptsShortPaths()
    ensures ValidateYouTubeUrl("youtu.be/x")
    ensures ValidateYouTubeUrl("http://youtube.com//\n")
  {
    AcceptsAfterPrefix("", "", "youtu.be", 'x', "");
    assert "" + "" + "youtu.be" + "/" + ['x'] + "" == "youtu.be/x";
    AcceptsAfterPrefix("http://", "", "youtube.com", '/', "\n");
    assert "http://" + "" + "youtube.com" + "/" + ['/'] + "\n" == "http://youtube.com//\n";
  }

  /** The only accepted prefixes without a scheme and without `www.`. */
  lemma AcceptedPrefixStartingWithY(p: string)
    requires IsAcceptedPrefix(p) && |p| > 0 && p[0] == 'y'
    ensures p == "youtube.com/" || p == "youtu.be/"
  {
    var s, w, h :| s in Schemes && w in Subdomains && h in Hosts && p == s + w + h + "/";
    if s == "" && w == "" {
      assert p == h + "/";
    }
  }

  /** The host followed by `/` and nothing else, or by `/` and a newline, is
      rejected: `.+` needs a non-newline character. */
  lemma RejectsEmptyPath()
    ensures !ValidateYouTubeUrl("youtube.com/")
    ensures !ValidateYouTubeUrl("youtu.be/\nx")
  {
    var u1, u2 := "youtube.com/", "youtu.be/\nx";
    ValidatorCharacterised(u1);
    ValidatorCharacterised(u2);
    forall p | IsAcceptedPrefix(p)
      ensures !PathFollows(u1, p) && !PathFollows(u2, p)
    {
      AcceptedPrefixStart(p);
      if p[0] == 'y' {
        AcceptedPrefixStartingWithY(p);
        assert u1[5] == 'b' && u2[5] == '.';
      }
    }
  }
}
