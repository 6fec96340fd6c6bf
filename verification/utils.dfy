/**
 * The two pure string helpers of the web app: turning a typed board name into the slug used
 * in URLs and as the coordinator's key, and joining conditional CSS class names.
 */
module Utils {

  // ---------------------------------------------------------------------------------------
  // normalizeBoardName

  /** The characters `[a-zA-Z0-9_-]` the first pass keeps. */
  predicate Kept(c: char) {
    ('a' <= c <= 'z') || ('A' <= c <= 'Z') || ('0' <= c <= '9') || c == '_' || c == '-'
  }

  /** The characters a normalized name is made of: `[a-z0-9-]`. */
  predicate SlugChar(c: char) {
    ('a' <= c <= 'z') || ('0' <= c <= '9') || c == '-'
  }

  predicate IsSlug(s: string) {
    forall i :: 0 <= i < |s| ==> SlugChar(s[i])
  }

  /** `.replace(/[^a-zA-Z0-9_-]/g, '')`. */
  function StripDisallowed(s: string): (r: string)
    ensures |r| <= |s|
    ensures forall i :: 0 <= i < |r| ==> Kept(r[i])
  {
    if s == [] then []
    else (if Kept(s[0]) then [s[0]] else []) + StripDisallowed(s[1..])
  }

  /** `.replace(/_/g, '-')`. */
  function DashUnderscores(s: string): (r: string)
    ensures |r| == |s|
  {
    if s == [] then [] else [if s[0] == '_' then '-' else s[0]] + DashUnderscores(s[1..])
  }

  /** Lower-case of one character in the range `A`-`Z`; every other character is its own. */
  function LowerChar(c: char): char {
    if 'A' <= c <= 'Z' then (c as int + 32) as char else c
  }

  /**
   * `.toLowerCase()`. After the first pass only ASCII letters, digits, `_` and `-` remain, on
   * which the full Unicode lower-casing is exactly this one.
   */
  function AsciiLower(s: string): (r: string)
    ensures |r| == |s|
  {
    if s == [] then [] else [LowerChar(s[0])] + AsciiLower(s[1..])
  }

  /** `normalizeBoardName`: the three passes, in the source's order. */
  function NormalizeBoardName(board: string): (r: string)
    ensures |r| <= |board|
  {
    AsciiLower(DashUnderscores(StripDisallowed(board)))
  }

  /** What a kept character becomes. */
  function NormalizeChar(c: char): char {
    if c == '_' then '-' else LowerChar(c)
  }

  /** Reference: one pass over the input, each kept character normalized, the rest dropped. */
  function Slugify(s: string): string {
    if s == [] then []
    else (if Kept(s[0]) then [NormalizeChar(s[0])] else []) + Slugify(s[1..])
  }

  lemma {:induction false} DashAppend(a: string, c: string)
    ensures DashUnderscores(a + c) == DashUnderscores(a) + DashUnderscores(c)
  {
    if a == [] {
      assert a + c == c;
    } else {
      assert (a + c)[1..] == a[1..] + c;
      DashAppend(a[1..], c);
    }
  }

  lemma {:induction false} LowerAppend(a: string, c: string)
    ensures AsciiLower(a + c) == AsciiLower(a) + AsciiLower(c)
  {
    if a == [] {
      assert a + c == c;
    } else {
      assert (a + c)[1..] == a[1..] + c;
      LowerAppend(a[1..], c);
    }
  }

  /** The three passes equal the single-pass reference. */
  lemma {:induction false} NormalizeIsSlugify(s: string)
    ensures NormalizeBoardName(s) == Slugify(s)
  {
    if s != [] {
      NormalizeIsSlugify(s[1..]);
      var head := if Kept(s[0]) then [s[0]] else [];
      DashAppend(head, StripDisallowed(s[1..]));
      LowerAppend(DashUnderscores(head), DashUnderscores(StripDisallowed(s[1..])));
    }
  }

  lemma {:induction false} SlugifyIsSlug(s: string)
    ensures IsSlug(Slugify(s))
  {
    if s != [] {
      SlugifyIsSlug(s[1..]);
      var head := if Kept(s[0]) then [NormalizeChar(s[0])] else [];
      assert forall i :: 0 <= i < |head| ==> SlugChar(head[i]);
      var r := Slugify(s);
      assert r == head + Slugify(s[1..]);
      forall i | 0 <= i < |r|
        ensures SlugChar(r[i])
      {
        if i >= |head| {
          assert r[i] == Slugify(s[1..])[i - |head|];
        }
      }
    }
  }

  /** A name made only of `[a-z0-9-]` is left exactly as it is. */
  lemma {:induction false} SlugifyFixesSlugs(s: string)
    requires IsSlug(s)
    ensures Slugify(s) == s
  {
    if s != [] {
      assert SlugChar(s[0]);
      SlugifyFixesSlugs(s[1..]);
    }
  }

  /** The output contains only `[a-z0-9-]`. */
  lemma NormalizeOutputIsSlug(board: string)
    ensures IsSlug(NormalizeBoardName(board))
  {
    NormalizeIsSlugify(board);
    SlugifyIsSlug(board);
  }

  /** Normalizing twice is normalizing once. */
  lemma NormalizeIdempotent(board: string)
    ensures NormalizeBoardName(NormalizeBoardName(board)) == NormalizeBoardName(board)
  {
    var once := NormalizeBoardName(board);
    NormalizeOutputIsSlug(board);
    NormalizeIsSlugify(once);
    SlugifyFixesSlugs(once);
  }

  /** A name is left unchanged exactly when it is already made of `[a-z0-9-]`. */
  lemma NormalizeFixedPoints(board: string)
    ensures NormalizeBoardName(board) == board <==> IsSlug(board)
  {
    NormalizeOutputIsSlug(board);
    if IsSlug(board) {
      NormalizeIsSlugify(board);
      SlugifyFixesSlugs(board);
    }
  }

  // ---------------------------------------------------------------------------------------
  // classNames

  /** An argument of `classNames`: a string, a boolean, or `null`/`undefined`. */
  datatype ClassArg = Text(s: string) | Flag(b: bool) | Missing

  /** `Boolean(arg)`. */
  predicate IsTruthy(a: ClassArg) {
    match a
    case Text(s) => s != ""
    case Flag(b) => b
    case Missing => false
  }

  /** How `join` writes a truthy argument (`true` is written as the word). */
  function Render(a: ClassArg): (r: string)
    requires IsTruthy(a)
    ensures r != []
  {
    match a
    case Text(s) => s
    case Flag(_) => "true"
  }

  /** `classes.filter(Boolean)`, written out. */
  function TruthyParts(args: seq<ClassArg>): (r: seq<string>)
    ensures forall i :: 0 <= i < |r| ==> r[i] != []
  {
    if args == [] then []
    else (if IsTruthy(args[0]) then [Render(args[0])] else []) + TruthyParts(args[1..])
  }

  /** `parts.join(sep)`. */
  function Join(parts: seq<string>, sep: char): string {
    if parts == [] then []
    else if |parts| == 1 then parts[0]
    else parts[0] + [sep] + Join(parts[1..], sep)
  }

  /** `classNames(...classes)`: empty exactly when no argument is truthy. */
  function ClassNames(args: seq<ClassArg>): (r: string)
    ensures r == "" <==> forall i :: 0 <= i < |args| ==> !IsTruthy(args[i])
  {
    TruthyPartsEmpty(args);
    JoinEmpty(TruthyParts(args), ' ');
    Join(TruthyParts(args), ' ')
  }

  /** `s.split(sep)`: the pieces between separators, one more than there are separators. */
  function Split(s: string, sep: char): (r: seq<string>)
    ensures |r| >= 1
  {
    if s == [] then [[]]
    else
      var rest := Split(s[1..], sep);
      if s[0] == sep then [[]] + rest else [[s[0]] + rest[0]] + rest[1..]
  }

  lemma {:induction false} JoinEmpty(parts: seq<string>, sep: char)
    ensures Join(parts, sep) == [] <==> parts == [] || (|parts| == 1 && parts[0] == [])
  {
    if |parts| > 1 {
      assert |Join(parts, sep)| >= |parts[0] + [sep]|;
    }
  }

  lemma {:induction false} TruthyPartsEmpty(args: seq<ClassArg>)
    ensures TruthyParts(args) == [] <==> forall i :: 0 <= i < |args| ==> !IsTruthy(args[i])
  {
    if args != [] {
      TruthyPartsEmpty(args[1..]);
      if IsTruthy(args[0]) {
        assert |TruthyParts(args)| >= 1;
      } else {
        assert forall i :: 1 <= i < |args| ==> args[i] == args[1..][i - 1];
      }
    }
  }

  /** `classNames` yields the empty string exactly when no argument is truthy. */
  lemma ClassNamesEmpty(args: seq<ClassArg>)
    ensures ClassNames(args) == "" <==> forall i :: 0 <= i < |args| ==> !IsTruthy(args[i])
  {
    TruthyPartsEmpty(args);
    JoinEmpty(TruthyParts(args), ' ');
  }

  /** Filtering a concatenation filters each part. */
  lemma {:induction false} TruthyPartsAppend(a: seq<ClassArg>, b: seq<ClassArg>)
    ensures TruthyParts(a + b) == TruthyParts(a) + TruthyParts(b)
    decreases |a|
  {
    if a == [] {
      assert a + b == b;
    } else {
      var head := if IsTruthy(a[0]) then [Render(a[0])] else [];
      assert (a + b)[0] == a[0] && (a + b)[1..] == a[1..] + b;
      TruthyPartsAppend(a[1..], b);
      assert TruthyParts(a + b) == head + TruthyParts(a[1..] + b);
      assert TruthyParts(a) == head + TruthyParts(a[1..]);
    }
  }

  /** Joining two non-empty lists puts one separator between the two joins. */
  lemma {:induction false} JoinAppend(p: seq<string>, q: seq<string>, sep: char)
    requires p != [] && q != []
    ensures Join(p + q, sep) == Join(p, sep) + [sep] + Join(q, sep)
    decreases |p|
  {
    assert (p + q)[0] == p[0] && (p + q)[1..] == p[1..] + q;
    if |p| > 1 {
      JoinAppend(p[1..], q, sep);
      assert Join(p + q, sep) == p[0] + [sep] + Join(p[1..] + q, sep);
    }
  }

  /**
   * `classNames(...a, ...b)` is the two results joined by one space, or just the one that is
   * not empty: each argument's text goes in whole, spaces inside it included.
   */
  lemma ClassNamesAppend(a: seq<ClassArg>, b: seq<ClassArg>)
    ensures ClassNames(a) == "" ==> ClassNames(a + b) == ClassNames(b)
    ensures ClassNames(b) == "" ==> ClassNames(a + b) == ClassNames(a)
    ensures ClassNames(a) != "" && ClassNames(b) != "" ==>
              ClassNames(a + b) == ClassNames(a) + " " + ClassNames(b)
  {
    TruthyPartsAppend(a, b);
    TruthyPartsEmpty(a);
    TruthyPartsEmpty(b);
    if TruthyParts(a) == [] {
      assert TruthyParts(a + b) == TruthyParts(b);
    } else if TruthyParts(b) == [] {
      assert TruthyParts(a + b) == TruthyParts(a);
    } else {
      JoinAppend(TruthyParts(a), TruthyParts(b), ' ');
    }
  }

  /** A single argument is written as itself when truthy, and not at all otherwise. */
  lemma ClassNamesSingle(x: ClassArg)
    ensures IsTruthy(x) ==> ClassNames([x]) == Render(x)
    ensures !IsTruthy(x) ==> ClassNames([x]) == ""
  {
    assert [x][0] == x && [x][1..] == [];
    assert TruthyParts([x]) == (if IsTruthy(x) then [Render(x)] else []) + TruthyParts([]);
  }

  /** Splitting a word without separators followed by more text glues the word to the first piece. */
  lemma {:induction false} SplitWord(w: string, t: string, sep: char)
    requires forall i :: 0 <= i < |w| ==> w[i] != sep
    ensures Split(w + t, sep) == [w + Split(t, sep)[0]] + Split(t, sep)[1..]
  {
    if w == [] {
      assert w + t == t;
      assert w + Split(t, sep)[0] == Split(t, sep)[0];
      assert Split(t, sep) == [Split(t, sep)[0]] + Split(t, sep)[1..];
    } else {
      assert (w + t)[1..] == w[1..] + t;
      SplitWord(w[1..], t, sep);
      assert [w[0]] + (w[1..] + Split(t, sep)[0]) == w + Split(t, sep)[0];
    }
  }

  /**
   * Round trip: when no class name contains a space, splitting the joined string on spaces gives
   * back the truthy arguments, each once, in argument order.
   */
  lemma {:induction false} SplitJoin(parts: seq<string>, sep: char)
    requires parts != []
    requires forall k, i :: 0 <= k < |parts| && 0 <= i < |parts[k]| ==> parts[k][i] != sep
    ensures Split(Join(parts, sep), sep) == parts
  {
    if |parts| == 1 {
      SplitWord(parts[0], [], sep);
      assert parts[0] + [] == parts[0];
    } else {
      var rest := parts[1..];
      SplitJoin(rest, sep);
      var t := [sep] + Join(rest, sep);
      assert parts[0] + [sep] + Join(rest, sep) == parts[0] + t;
      assert Join(parts, sep) == parts[0] + t;
      SplitWord(parts[0], t, sep);
      assert t[1..] == Join(rest, sep);
      assert Split(t, sep) == [[]] + rest;
      assert parts[0] + Split(t, sep)[0] == parts[0];
      assert Split(t, sep)[1..] == rest;
      assert parts == [parts[0]] + rest;
    }
  }

  /** `classNames` keeps the truthy arguments, in order, separated by single spaces. */
  lemma ClassNamesRoundTrip(args: seq<ClassArg>)
    requires exists i :: 0 <= i < |args| && IsTruthy(args[i])
    requires forall i, k :: 0 <= i < |args| && IsTruthy(args[i]) && 0 <= k < |Render(args[i])| ==> Render(args[i])[k] != ' '
    ensures Split(ClassNames(args), ' ') == TruthyParts(args)
  {
    TruthyPartsEmpty(args);
    TruthyPartsFrom(args);
    SplitJoin(TruthyParts(args), ' ');
  }

  /** Every part is the rendering of a truthy argument. */
  lemma {:induction false} TruthyPartsFrom(args: seq<ClassArg>)
    ensures forall k :: 0 <= k < |TruthyParts(args)| ==>
              exists i :: 0 <= i < |args| && IsTruthy(args[i]) && TruthyParts(args)[k] == Render(args[i])
  {
    if args != [] {
      TruthyPartsFrom(args[1..]);
      var head := if IsTruthy(args[0]) then [Render(args[0])] else [];
      var r := TruthyParts(args);
      assert r == head + TruthyParts(args[1..]);
      forall k | 0 <= k < |r|
        ensures exists i :: 0 <= i < |args| && IsTruthy(args[i]) && r[k] == Render(args[i])
      {
        if k < |head| {
          assert IsTruthy(args[0]) && r[k] == Render(args[0]);
        } else {
          assert r[k] == TruthyParts(args[1..])[k - |head|];
          var i :| 0 <= i < |args[1..]| && IsTruthy(args[1..][i]) && r[k] == Render(args[1..][i]);
          assert args[1..][i] == args[i + 1];
          assert 0 <= i + 1 < |args| && IsTruthy(args[i + 1]) && r[k] == Render(args[i + 1]);
        }
      }
    } else {
      assert TruthyParts(args) == [];
    }
  }
}
