/** Regular expressions with the constructs that the source uses, read as languages:
    `Match(r, s)` says that the whole of `s` is matched by `r`. */
module Regexes {
  import opened Text

  datatype CharClass =
    | Only(c: char)
    | AnyChar             // .
    | Space               // \s
    | NonSpace            // \S
    | LowerAlnum          // [a-z0-9]
    | LowerAlnumHyphen    // [a-z0-9\-]
    | Alnum               // [a-zA-Z0-9]
    | AlnumHyphen         // [a-zA-Z0-9\-]
  {
    predicate Has(x: char) {
      match this
      case Only(c) => x == c
      case AnyChar => x != '\n'
      case Space => IsSpace(x)
      case NonSpace => !IsSpace(x)
      case LowerAlnum => IsLowerAlnum(x)
      case LowerAlnumHyphen => IsLowerAlnum(x) || x == '-'
      case Alnum => IsLowerAlnum(x) || 'A' <= x <= 'Z'
      case AlnumHyphen => IsLowerAlnum(x) || 'A' <= x <= 'Z' || x == '-'
    }
  }

  predicate IsLowerAlnum(x: char) {
    'a' <= x <= 'z' || '0' <= x <= '9'
  }

  datatype Regex =
    | Empty
    | Class(cls: CharClass)
    | Cat(left: Regex, right: Regex)
    | Alt(left: Regex, right: Regex)
    | Star(body: Regex)
    | UpTo(body: Regex, max: nat)  // body{0,max}

  function Plus(r: Regex): Regex {
    Cat(r, Star(r))
  }

  function Lit(text: string): Regex {
    if text == "" then Empty else Cat(Class(Only(text[0])), Lit(text[1..]))
  }

  function Height(r: Regex): nat {
    match r
    case Empty => 0
    case Class(_) => 0
    case Cat(a, b) => 1 + Height(a) + Height(b)
    case Alt(a, b) => 1 + Height(a) + Height(b)
    case Star(a) => 1 + Height(a)
    case UpTo(a, _) => 1 + Height(a)
  }

  predicate Match(r: Regex, s: string)
    decreases Height(r), |s|
  {
    match r
    case Empty => s == ""
    case Class(cls) => |s| == 1 && cls.Has(s[0])
    case Cat(a, b) => exists i | 0 <= i <= |s| :: Match(a, s[..i]) && Match(b, s[i..])
    case Alt(a, b) => Match(a, s) || Match(b, s)
    case Star(a) => s == "" || exists i | 0 < i <= |s| :: Match(a, s[..i]) && Match(r, s[i..])
    case UpTo(a, n) =>
      s == "" || (n > 0 && exists i | 0 < i <= |s| :: Match(a, s[..i]) && Match(UpTo(a, n - 1), s[i..]))
  }

  predicate AllIn(cls: CharClass, s: string) {
    forall i | 0 <= i < |s| :: cls.Has(s[i])
  }

  lemma MatchCat(a: Regex, b: Regex, x: string, y: string)
    requires Match(a, x) && Match(b, y)
    ensures Match(Cat(a, b), x + y)
  {
    var s := x + y;
    assert s[..|x|] == x && s[|x|..] == y;
  }

  lemma SplitCat(a: Regex, b: Regex, s: string) returns (i: nat)
    requires Match(Cat(a, b), s)
    ensures i <= |s| && Match(a, s[..i]) && Match(b, s[i..])
  {
    i :| 0 <= i <= |s| && Match(a, s[..i]) && Match(b, s[i..]);
  }

  lemma MatchClass(cls: CharClass, s: string)
    ensures Match(Class(cls), s) <==> |s| == 1 && cls.Has(s[0])
  {
  }

  lemma MatchAlt(a: Regex, b: Regex, s: string)
    ensures Match(Alt(a, b), s) <==> Match(a, s) || Match(b, s)
  {
  }

  lemma MatchClassThen(cls: CharClass, b: Regex, s: string)
    ensures Match(Cat(Class(cls), b), s) <==> s != "" && cls.Has(s[0]) && Match(b, s[1..])
  {
    hide Match;
    if Match(Cat(Class(cls), b), s) {
      var i := SplitCat(Class(cls), b, s);
      MatchClass(cls, s[..i]);
      assert i == 1 && s[..i][0] == s[0];
    }
    if s != "" && cls.Has(s[0]) && Match(b, s[1..]) {
      MatchClass(cls, [s[0]]);
      MatchCat(Class(cls), b, [s[0]], s[1..]);
      assert s == [s[0]] + s[1..];
    }
  }

  lemma MatchThenClass(a: Regex, cls: CharClass, s: string)
    ensures Match(Cat(a, Class(cls)), s)
            <==> s != "" && Match(a, s[..|s| - 1]) && cls.Has(s[|s| - 1])
  {
    hide Match;
    if Match(Cat(a, Class(cls)), s) {
      var i := SplitCat(a, Class(cls), s);
      MatchClass(cls, s[i..]);
      assert i == |s| - 1 && s[i..][0] == s[|s| - 1];
    }
    if s != "" && Match(a, s[..|s| - 1]) && cls.Has(s[|s| - 1]) {
      MatchClass(cls, [s[|s| - 1]]);
      MatchCat(a, Class(cls), s[..|s| - 1], [s[|s| - 1]]);
      assert s == s[..|s| - 1] + [s[|s| - 1]];
    }
  }

  lemma SplitStar(a: Regex, s: string) returns (i: nat)
    requires Match(Star(a), s) && s != ""
    ensures 0 < i <= |s| && Match(a, s[..i]) && Match(Star(a), s[i..])
  {
    i :| 0 < i <= |s| && Match(a, s[..i]) && Match(Star(a), s[i..]);
  }

  lemma MatchStarStep(a: Regex, x: string, y: string)
    requires x != "" && Match(a, x) && Match(Star(a), y)
    ensures Match(Star(a), x + y)
  {
    var s := x + y;
    assert s[..|x|] == x && s[|x|..] == y;
  }

  lemma {:induction false} MatchLit(text: string, s: string)
    ensures Match(Lit(text), s) <==> s == text
  {
    if text != "" {
      if s != "" {
        assert s[..1] + s[1..] == s;
        MatchLit(text[1..], s[1..]);
      }
      assert [text[0]] + text[1..] == text;
      if s == text { assert s[..1] == [text[0]]; }
    }
  }

  lemma {:induction false} MatchStarClass(cls: CharClass, s: string)
    ensures Match(Star(Class(cls)), s) <==> AllIn(cls, s)
  {
    if s != "" {
      MatchStarClass(cls, s[1..]);
      assert s[..1] == [s[0]];
      if Match(Star(Class(cls)), s) {
        var i :| 0 < i <= |s| && Match(Class(cls), s[..i]) && Match(Star(Class(cls)), s[i..]);
        assert i == 1 && cls.Has(s[0]);
      }
      if AllIn(cls, s) { assert AllIn(cls, s[1..]); }
      if AllIn(cls, s[1..]) && cls.Has(s[0]) {
        assert forall i | 1 <= i < |s| :: s[i] == s[1..][i - 1];
      }
    }
  }

  lemma MatchPlusClass(cls: CharClass, s: string)
    ensures Match(Plus(Class(cls)), s) <==> s != "" && AllIn(cls, s)
  {
    hide Match;
    MatchClassThen(cls, Star(Class(cls)), s);
    if s != "" {
      MatchStarClass(cls, s[1..]);
      assert forall i | 1 <= i < |s| :: s[i] == s[1..][i - 1];
    }
  }

  lemma {:induction false} MatchUpToClass(cls: CharClass, n: nat, s: string)
    ensures Match(UpTo(Class(cls), n), s) <==> |s| <= n && AllIn(cls, s)
    decreases n
  {
    if s != "" && n > 0 {
      MatchUpToClass(cls, n - 1, s[1..]);
      assert s[..1] == [s[0]];
      if Match(UpTo(Class(cls), n), s) {
        var i :| 0 < i <= |s| && Match(Class(cls), s[..i]) && Match(UpTo(Class(cls), n - 1), s[i..]);
        assert i == 1 && cls.Has(s[0]);
      }
      if AllIn(cls, s) { assert AllIn(cls, s[1..]); }
      if AllIn(cls, s[1..]) && cls.Has(s[0]) {
        assert forall i | 1 <= i < |s| :: s[i] == s[1..][i - 1];
      }
    }
  }
}
