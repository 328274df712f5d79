/** What the pattern built by `escape_title_for_search` means.

    The compiled text is a sequence of four kinds of regular-expression pieces:
    a plain character, a backslash-escaped character, an optional single
    character `([c]?)` and the alternation `(AND|&)`. This module reads the
    compiled text as such a sequence, proves that the string pipeline of
    TextUtils produces exactly the rendering of a sequence built piece by
    piece, and proves what the pattern matches: the normalised title itself in
    any letter case, and the title with any of the optional punctuation
    marks left out. */
module TitlePattern {
  import opened Basics
  import opened TextUtils

  /** One piece of a compiled pattern. */
  datatype Atom =
    | Lit(c: char)   // a character that is not special, standing for itself
    | Esc(c: char)   // `\c`, the escaped special character c
    | Opt(c: char)   // `([c]?)`, the character c or nothing
    | AndOrAmp       // `(AND|&)`

  function AtomText(a: Atom): (r: string)
    ensures |r| > 0
  {
    match a
    case Lit(c) => [c]
    case Esc(c) => ['\\', c]
    case Opt(c) => ['(', '[', c, ']', '?', ')']
    case AndOrAmp => "(AND|&)"
  }

  function Render(p: seq<Atom>): string
  {
    if p == [] then "" else AtomText(p[0]) + Render(p[1..])
  }

  /** The punctuation marks the compiler makes optional. */
  predicate IsOptionalMark(c: char)
  {
    c in "',!.?:"
  }

  /** The shape of every piece the pipeline produces: plain characters are never
      special, escaped ones always are, and only the six marks become optional. */
  predicate WellFormedAtom(a: Atom)
  {
    match a
    case Lit(c) => !IsRegexSpecial(c)
    case Esc(c) => IsRegexSpecial(c)
    case Opt(c) => IsOptionalMark(c)
    case AndOrAmp => true
  }

  predicate WellFormed(p: seq<Atom>)
  {
    forall i :: 0 <= i < |p| ==> WellFormedAtom(p[i])
  }

  /** No optional piece for the character c yet. */
  predicate NoOpt(p: seq<Atom>, c: char)
  {
    forall i :: 0 <= i < |p| ==> p[i] != Opt(c)
  }

  lemma {:induction false} RenderAppend(p: seq<Atom>, q: seq<Atom>)
    ensures Render(p + q) == Render(p) + Render(q)
  {
    if p != [] {
      assert (p + q)[1..] == p[1..] + q;
      RenderAppend(p[1..], q);
    } else {
      assert p + q == q;
    }
  }

  /** The first character of a rendering tells which kind of piece comes first. */
  lemma RenderHead(p: seq<Atom>)
    requires WellFormed(p) && |p| > 0
    ensures |Render(p)| > 0 && Render(p)[0] == AtomText(p[0])[0]
    ensures Render(p)[0] == '\\' <==> p[0].Esc?
    ensures Render(p)[0] == '(' <==> (p[0].Opt? || p[0].AndOrAmp?)
    ensures p[0].Lit? ==> Render(p)[0] == p[0].c
  {
    assert Render(p) == AtomText(p[0]) + Render(p[1..]);
    assert WellFormedAtom(p[0]);
  }

  // ---------------------------------------------------------------------------
  // Facts about Replace used by the bridge lemmas.

  lemma ReplaceMatch(pat: string, r: string, rep: string)
    requires |pat| > 0
    ensures Replace(pat + r, pat, rep) == rep + Replace(r, pat, rep)
  {
    assert (pat + r)[..|pat|] == pat;
    assert (pat + r)[|pat|..] == r;
  }

  /** No occurrence starts at the first character: it is copied. */
  lemma ReplaceStep(s: string, pat: string, rep: string)
    requires |pat| > 0 && |s| > 0
    requires !(|pat| <= |s| && s[..|pat|] == pat)
    ensures Replace(s, pat, rep) == [s[0]] + Replace(s[1..], pat, rep)
  {
    if |s| < |pat| {
      assert Replace(s[1..], pat, rep) == s[1..];
      assert s == [s[0]] + s[1..];
    }
  }

  /** A prefix that does not contain the pattern's first character is copied. */
  lemma {:induction false} ReplaceSkip(x: string, r: string, pat: string, rep: string)
    requires |pat| > 0
    requires forall i :: 0 <= i < |x| ==> x[i] != pat[0]
    ensures Replace(x + r, pat, rep) == x + Replace(r, pat, rep)
    decreases |x|
  {
    if x != [] {
      var s := x + r;
      var tail := x[1..];
      assert s[0] == x[0];
      if |pat| <= |s| {
        assert s[..|pat|][0] == s[0];
      }
      ReplaceStep(s, pat, rep);
      assert s[1..] == tail + r;
      ReplaceSkip(tail, r, pat, rep);
      assert x == [x[0]] + tail;
      assert Replace(s, pat, rep) == [x[0]] + (tail + Replace(r, pat, rep));
    } else {
      assert x + r == r;
    }
  }

  /** A plain or escaped piece whose text starts a rendering is its first piece. */
  lemma HeadAtomMatches(p: seq<Atom>, a: Atom)
    requires WellFormed(p) && |p| > 0 && WellFormedAtom(a) && (a.Lit? || a.Esc?)
    requires |AtomText(a)| <= |Render(p)| && Render(p)[..|AtomText(a)|] == AtomText(a)
    ensures p[0] == a
    ensures Render(p[1..]) == Render(p)[|AtomText(a)|..]
  {
    RenderHead(p);
    assert Render(p) == AtomText(p[0]) + Render(p[1..]);
    if a.Lit? {
      assert Render(p)[0] == a.c;
      assert a.c != '\\' && a.c != '(';
    } else {
      assert Render(p)[0] == '\\';
      assert Render(p)[1] == a.c;
    }
  }

  /** A rendering that starts with the text of plain and escaped pieces starts with
      those pieces. */
  lemma {:induction false} StartsWithAtoms(p: seq<Atom>, atoms: seq<Atom>)
    requires WellFormed(p) && WellFormed(atoms)
    requires forall i :: 0 <= i < |atoms| ==> atoms[i].Lit? || atoms[i].Esc?
    requires |Render(atoms)| <= |Render(p)| && Render(p)[..|Render(atoms)|] == Render(atoms)
    ensures |atoms| <= |p| && p[..|atoms|] == atoms
    decreases |atoms|
  {
    if atoms != [] {
      var a := atoms[0];
      var t := AtomText(a);
      var ra := Render(atoms[1..]);
      var rp := Render(p);
      var n := |t| + |ra|;
      assert Render(atoms) == t + ra;
      assert rp[..n] == t + ra;
      assert rp[..|t|] == (t + ra)[..|t|] == t;
      assert WellFormedAtom(a);
      HeadAtomMatches(p, a);
      assert Render(p[1..])[..|ra|] == rp[|t|..n] == ra;
      StartsWithAtoms(p[1..], atoms[1..]);
      assert p[..|atoms|] == [p[0]] + p[1..][..|atoms| - 1];
      assert atoms == [a] + atoms[1..];
    }
  }

  /** A first piece whose text does not contain the pattern's first character is copied. */
  lemma HeadCopied(p: seq<Atom>, pat: string, rep: string)
    requires |p| > 0 && |pat| > 0
    requires forall i :: 0 <= i < |AtomText(p[0])| ==> AtomText(p[0])[i] != pat[0]
    ensures Replace(Render(p), pat, rep) == AtomText(p[0]) + Replace(Render(p[1..]), pat, rep)
  {
    ReplaceSkip(AtomText(p[0]), Render(p[1..]), pat, rep);
  }

  /** An escaped first piece where no occurrence starts is copied, provided the
      pattern's second character is special and not a backslash or parenthesis (so no
      occurrence can start at the escaped character either). */
  lemma EscapedHeadCopied(p: seq<Atom>, pat: string, rep: string)
    requires WellFormed(p) && |p| > 0 && p[0].Esc?
    requires |pat| >= 2 && pat[0] == '\\'
    requires IsRegexSpecial(pat[1]) && pat[1] != '\\' && pat[1] != '('
    requires !(|pat| <= |Render(p)| && Render(p)[..|pat|] == pat)
    ensures Replace(Render(p), pat, rep) == AtomText(p[0]) + Replace(Render(p[1..]), pat, rep)
  {
    var rest := p[1..];
    var r := Render(rest);
    var c := p[0].c;
    RenderUnfold(p);
    var s := Render(p);
    var t := [c] + r;
    assert s == ['\\'] + t;
    assert s[1..] == t;
    ReplaceStep(s, pat, rep);
    if c == '\\' && |r| > 0 {
      WellFormedTail(p);
      RenderHead(rest);
    }
    CharThenText(c, r, pat, rep);
    ConsCons('\\', c, Replace(r, pat, rep));
  }

  lemma ConsCons<T>(x: T, y: T, r: seq<T>)
    ensures [x] + ([y] + r) == [x, y] + r
  {
  }

  /** Replacement passes over a first character that cannot start the pattern. */
  lemma CharThenText(c: char, r: string, pat: string, rep: string)
    requires |pat| >= 2
    requires c != pat[0] || r == [] || r[0] != pat[1]
    ensures Replace([c] + r, pat, rep) == [c] + Replace(r, pat, rep)
  {
    var s1 := [c] + r;
    if |pat| <= |s1| {
      assert s1[..|pat|][0] == c;
      if r != [] {
        assert s1[..|pat|][1] == r[0];
      }
    }
    ReplaceStep(s1, pat, rep);
    assert s1[1..] == r;
  }

  lemma WellFormedTail(p: seq<Atom>)
    requires WellFormed(p) && |p| > 0
    ensures WellFormed(p[1..])
  {
    forall i | 0 <= i < |p| - 1 ensures WellFormedAtom(p[1..][i]) {
      assert p[1..][i] == p[i + 1];
    }
  }

  // ---------------------------------------------------------------------------
  // re.escape, piece by piece.

  function EscapeAtom(c: char): Atom
  {
    if IsRegexSpecial(c) then Esc(c) else Lit(c)
  }

  function EscapeAtoms(s: string): (p: seq<Atom>)
    ensures |p| == |s|
    ensures WellFormed(p)
    ensures forall c :: NoOpt(p, c)
    ensures forall i :: 0 <= i < |s| ==> p[i] == EscapeAtom(s[i])
  {
    if s == [] then [] else [EscapeAtom(s[0])] + EscapeAtoms(s[1..])
  }

  lemma {:induction false} EscapeBridge(s: string)
    ensures ReEscape(s) == Render(EscapeAtoms(s))
  {
    if s != [] {
      EscapeBridge(s[1..]);
      assert EscapeAtoms(s)[1..] == EscapeAtoms(s[1..]);
    }
  }

  // ---------------------------------------------------------------------------
  // Step 4: `\ AND\ ` becomes `\ (AND|&)\ `.

  const AndGroup: seq<Atom> := [Esc(' '), Lit('A'), Lit('N'), Lit('D'), Esc(' ')]
  const AndJoined: seq<Atom> := [Esc(' '), AndOrAmp, Esc(' ')]

  /** Every occurrence of the five pieces of ` AND `, scanning from the left and
      never overlapping, becomes the three pieces of ` (AND|&) `. */
  function JoinAnd(p: seq<Atom>): seq<Atom>
    decreases |p|
  {
    if |p| >= 5 && p[..5] == AndGroup then AndJoined + JoinAnd(p[5..])
    else if p == [] then []
    else [p[0]] + JoinAnd(p[1..])
  }

  /** No optional pieces at all. */
  predicate OptFree(p: seq<Atom>)
  {
    forall i :: 0 <= i < |p| ==> !p[i].Opt?
  }

  lemma {:induction false} JoinAndWellFormed(p: seq<Atom>)
    requires WellFormed(p)
    ensures WellFormed(JoinAnd(p))
    ensures OptFree(p) ==> OptFree(JoinAnd(p))
    decreases |p|
  {
    if |p| >= 5 && p[..5] == AndGroup {
      JoinAndWellFormed(p[5..]);
    } else if p != [] {
      JoinAndWellFormed(p[1..]);
    }
  }

  lemma AndGroupFacts()
    ensures Render(AndGroup) == AndToken
    ensures Render(AndJoined) == AndOrAmpersand
    ensures WellFormed(AndGroup)
    ensures forall i :: 0 <= i < |AndGroup| ==> AndGroup[i].Lit? || AndGroup[i].Esc?
  {
    AndGroupRender();
    AndJoinedRender();
  }

  lemma RenderCons(a: Atom, p: seq<Atom>)
    ensures Render([a] + p) == AtomText(a) + Render(p)
  {
    assert ([a] + p)[1..] == p;
  }

  lemma AndGroupRender()
    ensures Render(AndGroup) == AndToken
  {
    var sp, a, n, d := Esc(' '), Lit('A'), Lit('N'), Lit('D');
    RenderCons(sp, []);
    assert [sp] + [] == [sp];
    RenderCons(d, [sp]);
    RenderCons(n, [d, sp]);
    RenderCons(a, [n, d, sp]);
    RenderCons(sp, [a, n, d, sp]);
    assert [sp] + [a, n, d, sp] == AndGroup;
  }

  lemma AndJoinedRender()
    ensures Render(AndJoined) == AndOrAmpersand
  {
    var sp := Esc(' ');
    RenderCons(sp, []);
    assert [sp] + [] == [sp];
    RenderCons(AndOrAmp, [sp]);
    RenderCons(sp, [AndOrAmp, sp]);
    assert [sp] + [AndOrAmp, sp] == AndJoined;
  }

  lemma {:induction false} JoinAndBridge(p: seq<Atom>)
    requires WellFormed(p)
    ensures Replace(Render(p), AndToken, AndOrAmpersand) == Render(JoinAnd(p))
    decreases |p|
  {
    AndGroupFacts();
    if |p| >= 5 && p[..5] == AndGroup {
      RenderAppend(p[..5], p[5..]);
      assert p == p[..5] + p[5..];
      ReplaceMatch(AndToken, Render(p[5..]), AndOrAmpersand);
      JoinAndBridge(p[5..]);
      RenderAppend(AndJoined, JoinAnd(p[5..]));
    } else if p != [] {
      var a := p[0];
      assert WellFormedAtom(a);
      if a.Esc? {
        if |AndToken| <= |Render(p)| && Render(p)[..|AndToken|] == AndToken {
          StartsWithAtoms(p, AndGroup);
          assert false;
        }
        EscapedHeadCopied(p, AndToken, AndOrAmpersand);
      } else {
        HeadCopied(p, AndToken, AndOrAmpersand);
      }
      JoinAndBridge(p[1..]);
      assert JoinAnd(p) == [a] + JoinAnd(p[1..]);
    }
  }

  // ---------------------------------------------------------------------------
  // Step 5: the six punctuation marks become optional, one dictionary entry at a time.

  /** The effect of one dictionary entry on one piece: the plain or escaped mark c
      becomes optional. */
  function MakeOptional(a: Atom, c: char): Atom
  {
    if a == Lit(c) || a == Esc(c) then Opt(c) else a
  }

  function Optional(p: seq<Atom>, c: char): (q: seq<Atom>)
    ensures |q| == |p|
    ensures forall i :: 0 <= i < |p| ==> q[i] == MakeOptional(p[i], c)
  {
    if p == [] then [] else [MakeOptional(p[0], c)] + Optional(p[1..], c)
  }

  lemma OptionalWellFormed(p: seq<Atom>, c: char)
    requires WellFormed(p) && IsOptionalMark(c)
    ensures WellFormed(Optional(p, c))
  {
    var q := Optional(p, c);
    forall i | 0 <= i < |p| ensures WellFormedAtom(q[i]) {
      assert WellFormedAtom(p[i]);
    }
  }

  lemma OptionalKeepsNoOpt(p: seq<Atom>, c: char, d: char)
    requires NoOpt(p, d) && d != c
    ensures NoOpt(Optional(p, c), d)
  {
  }

  /** The entries `'`, `,`, `!` and `:`: a bare one-character pattern. */
  lemma {:induction false} OptionalBareBridge(p: seq<Atom>, c: char)
    requires WellFormed(p) && NoOpt(p, c)
    requires c in "',!:"
    ensures Replace(Render(p), [c], AtomText(Opt(c))) == Render(Optional(p, c))
    decreases |p|
  {
    if p != [] {
      var a, rest := p[0], p[1..];
      assert WellFormedAtom(a);
      assert a != Opt(c);
      if a == Lit(c) {
        assert Render(p) == [c] + Render(rest);
        ReplaceMatch([c], Render(rest), AtomText(Opt(c)));
      } else {
        assert MakeOptional(a, c) == a;
        HeadCopied(p, [c], AtomText(Opt(c)));
      }
      OptionalBareBridge(rest, c);
      assert Optional(p, c) == [MakeOptional(a, c)] + Optional(rest, c);
    }
  }

  /** The entries `\.` and `\?`: an escaped mark. */
  lemma {:induction false} OptionalEscapedBridge(p: seq<Atom>, c: char)
    requires WellFormed(p)
    requires c == '.' || c == '?'
    ensures Replace(Render(p), ['\\', c], AtomText(Opt(c))) == Render(Optional(p, c))
    decreases |p|
  {
    if p != [] {
      var a, rest := p[0], p[1..];
      var pat := ['\\', c];
      assert WellFormedAtom(a);
      if a == Esc(c) {
        assert Render(p) == pat + Render(rest);
        ReplaceMatch(pat, Render(rest), AtomText(Opt(c)));
      } else if a.Esc? {
        assert Render(p) == ['\\', a.c] + Render(rest);
        EscapedHeadCopied(p, pat, AtomText(Opt(c)));
        assert MakeOptional(a, c) == a;
      } else {
        assert MakeOptional(a, c) == a;
        HeadCopied(p, pat, AtomText(Opt(c)));
      }
      OptionalEscapedBridge(rest, c);
      assert Optional(p, c) == [MakeOptional(a, c)] + Optional(rest, c);
    }
  }

  /** The six dictionary entries, in dictionary order. */
  function Loosen(p: seq<Atom>): seq<Atom>
  {
    Optional(Optional(Optional(Optional(Optional(Optional(p, '\''), ','), '!'), '.'), '?'), ':')
  }

  lemma ApplyTableSnoc(s: string, t: Table, k: nat)
    requires ValidTable(t) && k < |t|
    ensures ApplyTable(s, t[..k + 1]) == Replace(ApplyTable(s, t[..k]), t[k].0, t[k].1)
  {
    assert t[..k + 1][..k] == t[..k];
  }

  lemma ApplyTableStep(s: string, t: Table, k: nat, sk: string)
    requires ValidTable(t) && k < |t| && ApplyTable(s, t[..k]) == sk
    ensures ApplyTable(s, t[..k + 1]) == Replace(sk, t[k].0, t[k].1)
  {
    ApplyTableSnoc(s, t, k);
  }

  lemma ApplyPunctuationFirstThree(s: string)
    ensures ApplyTable(s, PunctuationOptional[..3]) ==
      Replace(Replace(Replace(s, "'", "([']?)"), ",", "([,]?)"), "!", "([!]?)")
  {
    var t := PunctuationOptional;
    assert ApplyTable(s, t[..0]) == s;
    var s1 := Replace(s, "'", "([']?)");
    ApplyTableStep(s, t, 0, s);
    var s2 := Replace(s1, ",", "([,]?)");
    ApplyTableStep(s, t, 1, s1);
    ApplyTableStep(s, t, 2, s2);
  }

  lemma ApplyPunctuationUnrolled(s: string)
    ensures ApplyTable(s, PunctuationOptional) ==
      Replace(Replace(Replace(Replace(Replace(Replace(s,
        "'", "([']?)"), ",", "([,]?)"), "!", "([!]?)"),
        "\\.", "([.]?)"), "\\?", "([?]?)"), ":", "([:]?)")
  {
    var t := PunctuationOptional;
    var s3 := Replace(Replace(Replace(s, "'", "([']?)"), ",", "([,]?)"), "!", "([!]?)");
    ApplyPunctuationFirstThree(s);
    var s4 := Replace(s3, "\\.", "([.]?)");
    ApplyTableStep(s, t, 3, s3);
    var s5 := Replace(s4, "\\?", "([?]?)");
    ApplyTableStep(s, t, 4, s4);
    ApplyTableStep(s, t, 5, s5);
    assert t[..6] == t;
  }

  lemma LoosenBridge(p: seq<Atom>)
    requires WellFormed(p) && OptFree(p)
    ensures ApplyTable(Render(p), PunctuationOptional) == Render(Loosen(p))
    ensures WellFormed(Loosen(p))
  {
    ApplyPunctuationUnrolled(Render(p));
    var p1 := Optional(p, '\'');
    OptionalBareBridge(p, '\'');
    OptionalWellFormed(p, '\'');
    OptionalKeepsNoOpt(p, '\'', ',');
    OptionalKeepsNoOpt(p, '\'', '!');
    OptionalKeepsNoOpt(p, '\'', ':');
    var p2 := Optional(p1, ',');
    OptionalBareBridge(p1, ',');
    OptionalWellFormed(p1, ',');
    OptionalKeepsNoOpt(p1, ',', '!');
    OptionalKeepsNoOpt(p1, ',', ':');
    var p3 := Optional(p2, '!');
    OptionalBareBridge(p2, '!');
    OptionalWellFormed(p2, '!');
    OptionalKeepsNoOpt(p2, '!', ':');
    var p4 := Optional(p3, '.');
    OptionalEscapedBridge(p3, '.');
    OptionalWellFormed(p3, '.');
    OptionalKeepsNoOpt(p3, '.', ':');
    var p5 := Optional(p4, '?');
    OptionalEscapedBridge(p4, '?');
    OptionalWellFormed(p4, '?');
    OptionalKeepsNoOpt(p4, '?', ':');
    OptionalBareBridge(p5, ':');
    OptionalWellFormed(p5, ':');
    assert AtomText(Opt('\'')) == "([']?)";
    assert AtomText(Opt(',')) == "([,]?)";
    assert AtomText(Opt('!')) == "([!]?)";
    assert AtomText(Opt('.')) == "([.]?)";
    assert AtomText(Opt('?')) == "([?]?)";
    assert AtomText(Opt(':')) == "([:]?)";
  }

  // ---------------------------------------------------------------------------
  // Step 2: curly quotes become straight ones.

  function StraightQuote(c: char): char
  {
    if c == LeftSingleQuote || c == RightSingleQuote then '\''
    else if c == LeftDoubleQuote || c == RightDoubleQuote then '"'
    else c
  }

  function Straighten(s: string): (r: string)
    ensures |r| == |s|
    ensures forall i :: 0 <= i < |s| ==> r[i] == StraightQuote(s[i])
  {
    if s == [] then [] else [StraightQuote(s[0])] + Straighten(s[1..])
  }

  function SwapChar(s: string, a: char, b: char): (r: string)
    ensures |r| == |s|
    ensures forall i :: 0 <= i < |s| ==> r[i] == if s[i] == a then b else s[i]
  {
    if s == [] then [] else [if s[0] == a then b else s[0]] + SwapChar(s[1..], a, b)
  }

  lemma {:induction false} ReplaceChar(s: string, a: char, b: char)
    ensures Replace(s, [a], [b]) == SwapChar(s, a, b)
  {
    if s != [] {
      assert s[..1] == [s[0]];
      ReplaceChar(s[1..], a, b);
    }
  }

  /** The four quote swaps, one after the other. */
  function SwapQuotes(s: string): string
  {
    SwapChar(SwapChar(SwapChar(SwapChar(s, LeftSingleQuote, '\''), RightSingleQuote, '\''), LeftDoubleQuote, '"'), RightDoubleQuote, '"')
  }

  lemma QuoteTableSwaps(s: string)
    ensures ApplyTable(s, QuoteReplacements) == SwapQuotes(s)
  {
    var t := QuoteReplacements;
    var s1 := SwapChar(s, LeftSingleQuote, '\'');
    var s2 := SwapChar(s1, RightSingleQuote, '\'');
    var s3 := SwapChar(s2, LeftDoubleQuote, '"');
    assert ApplyTable(s, t[..0]) == s;
    ApplyTableSnoc(s, t, 0);
    ReplaceChar(s, LeftSingleQuote, '\'');
    assert ApplyTable(s, t[..1]) == s1;
    ApplyTableSnoc(s, t, 1);
    ReplaceChar(s1, RightSingleQuote, '\'');
    assert ApplyTable(s, t[..2]) == s2;
    ApplyTableSnoc(s, t, 2);
    ReplaceChar(s2, LeftDoubleQuote, '"');
    assert ApplyTable(s, t[..3]) == s3;
    ApplyTableSnoc(s, t, 3);
    ReplaceChar(s3, RightDoubleQuote, '"');
    assert t[..4] == t;
  }

  lemma SwapQuotesStraighten(s: string)
    ensures SwapQuotes(s) == Straighten(s)
  {
    var r := SwapQuotes(s);
    assert |r| == |s|;
    forall i | 0 <= i < |s|
      ensures r[i] == Straighten(s)[i]
    {
    }
  }

  lemma QuotesBridge(s: string)
    ensures ApplyTable(s, QuoteReplacements) == Straighten(s)
  {
    QuoteTableSwaps(s);
    SwapQuotesStraighten(s);
  }

  // ---------------------------------------------------------------------------
  // Step 6: an optional apostrophe before every `S` followed by an escaped character.

  function Possessive(p: seq<Atom>): seq<Atom>
    decreases |p|
  {
    if |p| >= 2 && p[0] == Lit('S') && p[1].Esc? then [Opt('\''), Lit('S'), p[1]] + Possessive(p[2..])
    else if p == [] then []
    else [p[0]] + Possessive(p[1..])
  }

  lemma {:induction false} PossessiveWellFormed(p: seq<Atom>)
    requires WellFormed(p)
    ensures WellFormed(Possessive(p))
    decreases |p|
  {
    if |p| >= 2 && p[0] == Lit('S') && p[1].Esc? {
      assert WellFormedAtom(p[1]);
      PossessiveWellFormed(p[2..]);
    } else if p != [] {
      assert WellFormedAtom(p[0]);
      PossessiveWellFormed(p[1..]);
    }
  }

  lemma PossessiveHeadText(x: char)
    ensures Render([Opt('\''), Lit('S'), Esc(x)]) == PossessiveOptional + [x]
  {
    var head := [Opt('\''), Lit('S'), Esc(x)];
    assert head[1..][1..][1..] == [];
    assert Render(head[1..][1..]) == ['\\', x];
    assert Render(head[1..]) == "S" + ['\\', x];
  }

  lemma PossessiveGroupText(p: seq<Atom>)
    requires |p| >= 2 && p[0] == Lit('S') && p[1].Esc?
    ensures Render(p) == PossessiveToken + ([p[1].c] + Render(p[2..]))
  {
    var q, c := p[1..], p[1].c;
    RenderUnfold(p);
    RenderUnfold(q);
    assert q[1..] == p[2..];
    var r := Render(p[2..]);
    assert AtomText(p[0]) == ['S'] && AtomText(q[0]) == ['\\', c];
    Regroup('S', '\\', c, r);
  }

  lemma RenderUnfold(p: seq<Atom>)
    requires p != []
    ensures Render(p) == AtomText(p[0]) + Render(p[1..])
  {
  }

  lemma Regroup<T>(x: T, y: T, z: T, r: seq<T>)
    ensures [x] + ([y, z] + r) == [x, y] + ([z] + r)
  {
  }

  lemma PossessiveReplaceGroup(x: char, r: string)
    requires x != 'S'
    ensures Replace(PossessiveToken + ([x] + r), PossessiveToken, PossessiveOptional) ==
      PossessiveOptional + [x] + Replace(r, PossessiveToken, PossessiveOptional)
  {
    var pat, rep := PossessiveToken, PossessiveOptional;
    ReplaceMatch(pat, [x] + r, rep);
    var s1 := [x] + r;
    assert pat[0] == 'S' && s1[0] == x;
    assert !(|pat| <= |s1| && s1[..|pat|] == pat) by {
      if |pat| <= |s1| {
        assert s1[..|pat|][0] != pat[0];
      }
    }
    ReplaceStep(s1, pat, rep);
    assert s1[1..] == r;
  }

  /** `S\x` becomes `([']?)S\x` and the scan continues after x. */
  lemma PossessiveGroupStep(p: seq<Atom>)
    requires WellFormed(p) && |p| >= 2 && p[0] == Lit('S') && p[1].Esc?
    ensures Replace(Render(p), PossessiveToken, PossessiveOptional) ==
      Render([Opt('\''), Lit('S'), p[1]]) + Replace(Render(p[2..]), PossessiveToken, PossessiveOptional)
  {
    assert WellFormedAtom(p[1]);
    PossessiveGroupText(p);
    PossessiveReplaceGroup(p[1].c, Render(p[2..]));
    PossessiveHeadText(p[1].c);
  }

  /** An `S` that is not followed by an escaped character is copied. */
  lemma PossessivePlainS(p: seq<Atom>)
    requires WellFormed(p) && |p| > 0 && p[0] == Lit('S')
    requires !(|p| >= 2 && p[1].Esc?)
    ensures Replace(Render(p), PossessiveToken, PossessiveOptional) ==
      "S" + Replace(Render(p[1..]), PossessiveToken, PossessiveOptional)
  {
    var pat, rep := PossessiveToken, PossessiveOptional;
    var r := Render(p[1..]);
    var s := Render(p);
    RenderUnfold(p);
    assert AtomText(p[0]) == ['S'];
    assert s == "S" + r;
    assert !(|pat| <= |s| && s[..|pat|] == pat) by {
      if |pat| <= |s| {
        assert pat[1] == '\\';
        assert |p| >= 2;
        RenderHead(p[1..]);
        assert s[..|pat|][1] == s[1] == r[0];
      }
    }
    ReplaceStep(s, pat, rep);
    assert s[1..] == r;
  }

  lemma {:induction false} PossessiveBridge(p: seq<Atom>)
    requires WellFormed(p)
    ensures Replace(Render(p), PossessiveToken, PossessiveOptional) == Render(Possessive(p))
    decreases |p|
  {
    if |p| >= 2 && p[0] == Lit('S') && p[1].Esc? {
      PossessiveGroupStep(p);
      PossessiveBridge(p[2..]);
      RenderAppend([Opt('\''), Lit('S'), p[1]], Possessive(p[2..]));
    } else if p != [] {
      var a := p[0];
      assert WellFormedAtom(a);
      if a == Lit('S') {
        PossessivePlainS(p);
      } else {
        HeadCopied(p, PossessiveToken, PossessiveOptional);
      }
      PossessiveBridge(p[1..]);
      assert Possessive(p) == [a] + Possessive(p[1..]);
    }
  }

  // ---------------------------------------------------------------------------
  // The whole compiler, piece by piece.

  function CompileAtoms(title: string): seq<Atom>
  {
    if title == [] then []
    else Possessive(Loosen(JoinAnd(EscapeAtoms(Straighten(Upper(title))))))
  }

  /** The text `escape_title_for_search` returns is the rendering of the pieces
      CompileAtoms builds, and those pieces are well formed. */
  lemma CompileBridge(title: string)
    ensures EscapeTitle(title) == Render(CompileAtoms(title))
    ensures WellFormed(CompileAtoms(title))
  {
    if title != [] {
      var upper := Upper(title);
      QuotesBridge(upper);
      var e := EscapeAtoms(Straighten(upper));
      EscapeBridge(Straighten(upper));
      JoinAndBridge(e);
      JoinAndWellFormed(e);
      var j := JoinAnd(e);
      LoosenBridge(j);
      PossessiveBridge(Loosen(j));
      PossessiveWellFormed(Loosen(j));
    }
  }

  // ---------------------------------------------------------------------------
  // What the pattern matches. yt-dlp applies `matchtitle` with `re.search` and
  // re.IGNORECASE; letters compare without regard to (ASCII) case.

  predicate SameLetter(x: char, y: char)
  {
    UpperChar(x) == UpperChar(y)
  }

  /** The whole of t matches the pieces p (as `re.fullmatch` with IGNORECASE would
      decide for the rendering of p). */
  predicate Matches(p: seq<Atom>, t: string)
    decreases |p|
  {
    if p == [] then t == []
    else match p[0]
      case Lit(c) => |t| > 0 && SameLetter(c, t[0]) && Matches(p[1..], t[1..])
      case Esc(c) => |t| > 0 && SameLetter(c, t[0]) && Matches(p[1..], t[1..])
      case Opt(c) => (|t| > 0 && SameLetter(c, t[0]) && Matches(p[1..], t[1..])) || Matches(p[1..], t)
      case AndOrAmp =>
        || (|t| >= 3 && SameLetter('A', t[0]) && SameLetter('N', t[1]) && SameLetter('D', t[2])
            && Matches(p[1..], t[3..]))
        || (|t| > 0 && t[0] == '&' && Matches(p[1..], t[1..]))
  }

  /** Some part of t matches (as `re.search` decides). */
  predicate Searches(p: seq<Atom>, t: string)
  {
    exists i, j :: 0 <= i <= j <= |t| && Matches(p, t[i..j])
  }

  /** An `S` the possessive step marks: one followed by a character that is
      still escaped after the punctuation step (any special character but `.`
      and `?`, which have become optional groups). */
  predicate PossessiveAt(o: string)
  {
    |o| >= 2 && o[0] == 'S' && IsRegexSpecial(o[1]) && o[1] != '.' && o[1] != '?'
  }

  /** t is the normalised title o written with any letter case, with any of the six
      optional marks left out, with ` & ` in place of any ` AND ` that the
      compiler's left-to-right scan rewrites, and with an apostrophe before any
      `S` the possessive step marks. */
  predicate Loosened(o: string, t: string)
    decreases |o|
  {
    if o == [] then t == []
    else if |o| >= 5 && o[..5] == " AND " then
      || (|t| >= 3 && t[..3] == " & " && Loosened(o[5..], t[3..]))
      || (|t| >= 5 && (forall k :: 0 <= k < 5 ==> SameLetter(o[k], t[k])) && Loosened(o[5..], t[5..]))
    else
      || (IsOptionalMark(o[0]) && Loosened(o[1..], t))
      || (|t| > 0 && SameLetter(o[0], t[0]) && Loosened(o[1..], t[1..]))
      || (PossessiveAt(o) && |t| >= 2 && t[0] == '\'' && SameLetter('S', t[1]) && Loosened(o[1..], t[2..]))
  }

  /** The title as the compiler normalises it before escaping. */
  function Normalised(title: string): string
  {
    Straighten(Upper(title))
  }

  function LoosenAtom(a: Atom): Atom
  {
    if (a.Lit? || a.Esc?) && IsOptionalMark(a.c) then Opt(a.c) else a
  }

  function MapLoosen(p: seq<Atom>): (q: seq<Atom>)
    ensures |q| == |p|
    ensures forall i :: 0 <= i < |p| ==> q[i] == LoosenAtom(p[i])
  {
    if p == [] then [] else [LoosenAtom(p[0])] + MapLoosen(p[1..])
  }

  /** The six entries applied in turn act on each piece as LoosenAtom does. */
  lemma LoosenIsMap(p: seq<Atom>)
    ensures Loosen(p) == MapLoosen(p)
  {
  }

  lemma {:induction false} MapLoosenAppend(p: seq<Atom>, q: seq<Atom>)
    ensures MapLoosen(p + q) == MapLoosen(p) + MapLoosen(q)
  {
    if p == [] {
      assert p + q == q;
    } else {
      var pq := p + q;
      assert pq[0] == p[0] && pq[1..] == p[1..] + q;
      MapLoosenAppend(p[1..], q);
      assert MapLoosen(pq) == [LoosenAtom(p[0])] + (MapLoosen(p[1..]) + MapLoosen(q));
    }
  }

  lemma MapLoosenSuffix(p: seq<Atom>, k: nat)
    requires k <= |p|
    ensures MapLoosen(p)[k..] == MapLoosen(p[k..])
  {
  }

  /** Making marks optional neither creates nor destroys the pieces of ` AND `. */
  lemma {:induction false} JoinAndLoosenCommute(p: seq<Atom>)
    ensures JoinAnd(MapLoosen(p)) == MapLoosen(JoinAnd(p))
    decreases |p|
  {
    var m := MapLoosen(p);
    if |p| >= 5 && p[..5] == AndGroup {
      assert m[..5] == AndGroup;
      MapLoosenSuffix(p, 5);
      JoinAndLoosenCommute(p[5..]);
      MapLoosenAppend(AndJoined, JoinAnd(p[5..]));
      assert MapLoosen(AndJoined) == AndJoined;
    } else if p != [] {
      assert !(|m| >= 5 && m[..5] == AndGroup);
      assert m[1..] == MapLoosen(p[1..]);
      JoinAndLoosenCommute(p[1..]);
      assert JoinAnd(p) == [p[0]] + JoinAnd(p[1..]);
      assert MapLoosen([p[0]] + JoinAnd(p[1..])) == [LoosenAtom(p[0])] + MapLoosen(JoinAnd(p[1..]));
    }
  }

  /** The escaped, loosened title before the ` AND ` scan. */
  function LooseAtoms(o: string): (q: seq<Atom>)
    ensures |q| == |o|
    ensures forall i :: 0 <= i < |o| ==> q[i] == LoosenAtom(EscapeAtom(o[i]))
  {
    if o == [] then [] else [LoosenAtom(EscapeAtom(o[0]))] + LooseAtoms(o[1..])
  }

  lemma LooseAtomsIsMap(o: string)
    ensures MapLoosen(EscapeAtoms(o)) == LooseAtoms(o)
  {
  }

  /** Every loosened piece carries the character it came from. */
  lemma LooseAtomsGroup(o: string)
    requires |o| >= 5 && LooseAtoms(o)[..5] == AndGroup
    ensures o[..5] == " AND "
  {
    var q := LooseAtoms(o);
    PrefixElements(q, AndGroup);
    forall k | 0 <= k < 5
      ensures o[k] == AndGroup[k].c
    {
      LooseAtomChar(o[k]);
    }
    assert o[..5] == [AndGroup[0].c, AndGroup[1].c, AndGroup[2].c, AndGroup[3].c, AndGroup[4].c];
  }

  /** Escaping and loosening keep the character an atom stands for. */
  lemma LooseAtomChar(c: char)
    ensures LoosenAtom(EscapeAtom(c)).c == c
  {
  }

  lemma AndText(o: string)
    requires |o| >= 5 && o[..5] == " AND "
    ensures o[0] == ' ' && o[1] == 'A' && o[2] == 'N' && o[3] == 'D' && o[4] == ' '
  {
  }

  lemma LooseAtomsAndGroup(o: string)
    requires |o| >= 5 && o[0] == ' ' && o[1] == 'A' && o[2] == 'N' && o[3] == 'D' && o[4] == ' '
    ensures LooseAtoms(o)[..5] == AndGroup
  {
    var q := LooseAtoms(o);
    assert LoosenAtom(EscapeAtom(' ')) == Esc(' ');
    assert LoosenAtom(EscapeAtom('A')) == Lit('A');
    assert LoosenAtom(EscapeAtom('N')) == Lit('N');
    assert LoosenAtom(EscapeAtom('D')) == Lit('D');
    assert q[0] == Esc(' ') && q[1] == Lit('A') && q[2] == Lit('N') && q[3] == Lit('D') && q[4] == Esc(' ');
  }

  /** The ` AND ` scan over the loosened title follows the title's characters. */
  lemma LooseAtomsScanAnd(o: string)
    requires |o| >= 5 && o[..5] == " AND "
    ensures JoinAnd(LooseAtoms(o)) == AndJoined + JoinAnd(LooseAtoms(o[5..]))
  {
    AndText(o);
    LooseAtomsAndGroup(o);
    assert LooseAtoms(o)[5..] == LooseAtoms(o[5..]);
  }

  lemma LooseAtomsScanOther(o: string)
    requires o != [] && !(|o| >= 5 && o[..5] == " AND ")
    ensures JoinAnd(LooseAtoms(o)) == [LoosenAtom(EscapeAtom(o[0]))] + JoinAnd(LooseAtoms(o[1..]))
  {
    var q := LooseAtoms(o);
    if |q| >= 5 && q[..5] == AndGroup {
      LooseAtomsGroup(o);
    }
    assert q[1..] == LooseAtoms(o[1..]);
  }

  /** The joined pieces ` (AND|&) ` match ` & ` and ` AND ` in any case. */
  lemma AndJoinedMatches(q: seq<Atom>, t: string, n: nat)
    requires n == 3 || n == 5
    requires |t| >= n
    requires n == 3 ==> t[..3] == " & "
    requires n == 5 ==> t[0] == ' ' && SameLetter('A', t[1]) && SameLetter('N', t[2]) && SameLetter('D', t[3]) && t[4] == ' '
    requires Matches(q, t[n..])
    ensures Matches(AndJoined + q, t)
  {
    var w := AndJoined + q;
    assert w[1..][1..][1..] == q;
    assert t[1..][n - 2..][1..] == t[n..];
    assert Matches(w[1..][1..], t[1..][n - 2..]);
    assert t[1..][n - 2..] == t[n - 1..];
    if n == 3 {
      assert t[1..][0] == '&';
      assert t[1..][1..] == t[2..];
    } else {
      assert t[1..][3..] == t[4..];
    }
    assert Matches(w[1..], t[1..]);
  }

  lemma AndLettersMatch(o: string, t: string)
    requires |o| >= 5 && o[..5] == " AND " && |t| >= 5
    requires forall k :: 0 <= k < 5 ==> SameLetter(o[k], t[k])
    ensures t[0] == ' ' && SameLetter('A', t[1]) && SameLetter('N', t[2]) && SameLetter('D', t[3]) && t[4] == ' '
  {
    AndText(o);
    assert SameLetter(o[0], t[0]) && SameLetter(o[4], t[4]);
  }

  /** The pieces the compiler builds from a normalised title o. */
  function Compiled(o: string): seq<Atom>
  {
    Possessive(JoinAnd(LooseAtoms(o)))
  }

  lemma PossessivePlainHead(a: Atom, x: seq<Atom>)
    requires a != Lit('S')
    ensures Possessive([a] + x) == [a] + Possessive(x)
  {
    assert ([a] + x)[1..] == x;
  }

  lemma PossessiveOverAndJoined(x: seq<Atom>)
    ensures Possessive(AndJoined + x) == AndJoined + Possessive(x)
  {
    var sp := Esc(' ');
    PossessivePlainHead(sp, x);
    PossessivePlainHead(AndOrAmp, [sp] + x);
    PossessivePlainHead(sp, [AndOrAmp] + ([sp] + x));
    assert AndJoined + x == [sp] + ([AndOrAmp] + ([sp] + x));
  }

  lemma CompiledAndStep(o: string)
    requires |o| >= 5 && o[..5] == " AND "
    ensures Compiled(o) == AndJoined + Compiled(o[5..])
  {
    LooseAtomsScanAnd(o);
    PossessiveOverAndJoined(JoinAnd(LooseAtoms(o[5..])));
  }

  /** The first joined piece is escaped exactly when the title's first character
      is special and not a mark the punctuation step makes optional. */
  lemma JoinedHeadEsc(o: string)
    requires o != []
    ensures JoinAnd(LooseAtoms(o)) != []
    ensures JoinAnd(LooseAtoms(o))[0].Esc? <==> IsRegexSpecial(o[0]) && o[0] != '.' && o[0] != '?'
  {
    if |o| >= 5 && o[..5] == " AND " {
      LooseAtomsScanAnd(o);
      assert o[0] == o[..5][0];
    } else {
      LooseAtomsScanOther(o);
    }
  }

  lemma PossessiveMarkedS(x: seq<Atom>)
    requires x != [] && x[0].Esc?
    ensures Possessive([Lit('S')] + x) == [Opt('\''), Lit('S')] + Possessive(x)
  {
    var p := [Lit('S')] + x;
    assert p[1] == x[0] && p[2..] == x[1..];
    assert x == [x[0]] + x[1..];
    PossessivePlainHead(x[0], x[1..]);
  }

  lemma CompiledPossessiveStep(o: string)
    requires PossessiveAt(o)
    ensures Compiled(o) == [Opt('\''), Lit('S')] + Compiled(o[1..])
  {
    LooseAtomsScanOther(o);
    JoinedHeadEsc(o[1..]);
    PossessiveMarkedS(JoinAnd(LooseAtoms(o[1..])));
  }

  lemma CompiledPlainStep(o: string)
    requires o != [] && !(|o| >= 5 && o[..5] == " AND ") && !PossessiveAt(o)
    ensures Compiled(o) == [LoosenAtom(EscapeAtom(o[0]))] + Compiled(o[1..])
  {
    LooseAtomsScanOther(o);
    var a := LoosenAtom(EscapeAtom(o[0]));
    var j1 := JoinAnd(LooseAtoms(o[1..]));
    if a == Lit('S') {
      if o[1..] != [] {
        JoinedHeadEsc(o[1..]);
      }
      assert ([a] + j1)[1..] == j1;
    } else {
      PossessivePlainHead(a, j1);
    }
  }

  /** One step of the main induction when o starts with ` AND `. */
  lemma AndStepMatches(o: string, t: string)
    requires |o| >= 5 && o[..5] == " AND " && Loosened(o, t)
    requires forall u :: Loosened(o[5..], u) ==> Matches(Compiled(o[5..]), u)
    ensures Matches(Compiled(o), t)
  {
    CompiledAndStep(o);
    var q := Compiled(o[5..]);
    if |t| >= 3 && t[..3] == " & " && Loosened(o[5..], t[3..]) {
      AndJoinedMatches(q, t, 3);
    } else {
      AndLettersMatch(o, t);
      AndJoinedMatches(q, t, 5);
    }
  }

  /** `([']?)S` matches an `S` with or without an apostrophe before it. */
  lemma OptionalApostropheMatches(rest: seq<Atom>, t: string)
    requires || (|t| > 0 && SameLetter('S', t[0]) && Matches(rest, t[1..]))
             || (|t| >= 2 && t[0] == '\'' && SameLetter('S', t[1]) && Matches(rest, t[2..]))
    ensures Matches([Opt('\''), Lit('S')] + rest, t)
  {
    var w := [Opt('\''), Lit('S')] + rest;
    assert w[1..] == [Lit('S')] + rest && w[1..][1..] == rest;
    if |t| >= 2 && t[0] == '\'' && SameLetter('S', t[1]) && Matches(rest, t[2..]) {
      assert t[1..][1..] == t[2..];
      assert Matches(w[1..], t[1..]);
    } else {
      assert Matches(w[1..], t);
    }
  }

  /** One step of the main induction at a possessive `S`. */
  lemma PossessiveStepMatches(o: string, t: string)
    requires PossessiveAt(o) && Loosened(o, t)
    requires forall u :: Loosened(o[1..], u) ==> Matches(Compiled(o[1..]), u)
    ensures Matches(Compiled(o), t)
  {
    CompiledPossessiveStep(o);
    OptionalApostropheMatches(Compiled(o[1..]), t);
  }

  /** One step of the main induction at any other character. */
  lemma PlainStepMatches(o: string, t: string)
    requires o != [] && !(|o| >= 5 && o[..5] == " AND ") && !PossessiveAt(o) && Loosened(o, t)
    requires forall u :: Loosened(o[1..], u) ==> Matches(Compiled(o[1..]), u)
    ensures Matches(Compiled(o), t)
  {
    CompiledPlainStep(o);
    var w := [LoosenAtom(EscapeAtom(o[0]))] + Compiled(o[1..]);
    assert w[1..] == Compiled(o[1..]);
    LooseAtomChar(o[0]);
  }

  lemma {:induction false} LoosenedMatchesCompiled(o: string, t: string)
    requires Loosened(o, t)
    ensures Matches(Compiled(o), t)
    decreases |o|
  {
    if o != [] {
      if |o| >= 5 && o[..5] == " AND " {
        forall u | Loosened(o[5..], u) ensures Matches(Compiled(o[5..]), u) {
          LoosenedMatchesCompiled(o[5..], u);
        }
        AndStepMatches(o, t);
      } else {
        forall u | Loosened(o[1..], u) ensures Matches(Compiled(o[1..]), u) {
          LoosenedMatchesCompiled(o[1..], u);
        }
        if PossessiveAt(o) {
          PossessiveStepMatches(o, t);
        } else {
          PlainStepMatches(o, t);
        }
      }
    }
  }

  /** The main theorem about the compiler: the pattern matches the title written in
      any letter case, with any of the punctuation marks `' , ! . ? :` left out,
      with ` & ` for ` AND `, and with `'` before an `S` that precedes a character
      still escaped. */
  lemma {:induction false} CompiledPatternMatches(title: string, t: string)
    requires Loosened(Normalised(title), t)
    ensures Matches(CompileAtoms(title), t)
  {
    if title != [] {
      var o := Normalised(title);
      var e := EscapeAtoms(o);
      LooseAtomsIsMap(o);
      JoinAndLoosenCommute(e);
      LoosenIsMap(JoinAnd(e));
      assert CompileAtoms(title) == Compiled(o);
      LoosenedMatchesCompiled(o, t);
    } else {
      assert Normalised(title) == [];
    }
  }

  /** The same text up to letter case is a loosened form. */
  lemma {:induction false} SameLettersLoosened(o: string, t: string)
    requires |o| == |t| && forall i :: 0 <= i < |o| ==> SameLetter(o[i], t[i])
    ensures Loosened(o, t)
    decreases |o|
  {
    if o != [] {
      if |o| >= 5 && o[..5] == " AND " {
        SameLettersLoosened(o[5..], t[5..]);
      } else {
        SameLettersLoosened(o[1..], t[1..]);
      }
    }
  }

  /** A text that has the normalised title's letters up to case is matched. */
  lemma SameLettersMatch(title: string, t: string)
    requires |t| == |Normalised(title)|
    requires forall i :: 0 <= i < |t| ==> SameLetter(Normalised(title)[i], t[i])
    ensures Matches(CompileAtoms(title), t)
  {
    SameLettersLoosened(Normalised(title), t);
    CompiledPatternMatches(title, t);
  }

  lemma StraightenedSameLetters(title: string)
    ensures |Straighten(title)| == |Normalised(title)|
    ensures forall i :: 0 <= i < |Straighten(title)| ==> SameLetter(Normalised(title)[i], Straighten(title)[i])
  {
    var u, n, t := Upper(title), Normalised(title), Straighten(title);
    forall i | 0 <= i < |t|
      ensures SameLetter(n[i], t[i])
    {
      StraightQuoteSameLetter(u[i], title[i]);
    }
  }

  /** Straightening a quote commutes with upper-casing, letter for letter. */
  lemma StraightQuoteSameLetter(x: char, y: char)
    requires UpperChar(x) == UpperChar(y)
    ensures SameLetter(StraightQuote(x), StraightQuote(y))
  {
  }

  lemma CaseChangeSameLetters(o: string, s: string)
    requires |o| == |s| && forall i :: 0 <= i < |s| ==> SameLetter(o[i], s[i])
    ensures |Upper(s)| == |o| && forall i :: 0 <= i < |s| ==> SameLetter(o[i], Upper(s)[i])
    ensures |Lower(s)| == |o| && forall i :: 0 <= i < |s| ==> SameLetter(o[i], Lower(s)[i])
  {
  }

  /** The pattern matches the episode title itself (with straight quotes), in any
      letter case. */
  lemma CompiledPatternMatchesTitle(title: string)
    ensures Matches(CompileAtoms(title), Straighten(title))
    ensures Matches(CompileAtoms(title), Upper(Straighten(title)))
    ensures Matches(CompileAtoms(title), Lower(Straighten(title)))
  {
    var s := Straighten(title);
    StraightenedSameLetters(title);
    SameLettersMatch(title, s);
    CaseChangeSameLetters(Normalised(title), s);
    SameLettersMatch(title, Upper(s));
    SameLettersMatch(title, Lower(s));
  }

  /** A video title that contains a loosened form of the episode title anywhere is
      accepted by the search. */
  lemma CompiledPatternFinds(title: string, before: string, t: string, after: string)
    requires Loosened(Normalised(title), t)
    ensures Searches(CompileAtoms(title), before + t + after)
  {
    CompiledPatternMatches(title, t);
    var v := before + t + after;
    assert v[|before|..|before| + |t|] == t;
  }

  // ---------------------------------------------------------------------------
  // Titles without quotes, optional marks, ` AND ` or a possessive `S`.

  lemma StraightenUnchanged(s: string)
    requires forall i :: 0 <= i < |s| ==> StraightQuote(s[i]) == s[i]
    ensures Straighten(s) == s
  {
  }

  lemma EscapeAtomsGroup(u: string)
    requires |u| >= 5 && EscapeAtoms(u)[..5] == AndGroup
    ensures u[..5] == " AND "
  {
    var e := EscapeAtoms(u);
    PrefixElements(e, AndGroup);
    forall k | 0 <= k < 5
      ensures u[k] == AndGroup[k].c
    {
      EscapeAtomChar(u[k]);
    }
    assert u[..5] == [AndGroup[0].c, AndGroup[1].c, AndGroup[2].c, AndGroup[3].c, AndGroup[4].c];
  }

  /** Escaping keeps the character an atom stands for. */
  lemma EscapeAtomChar(c: char)
    ensures EscapeAtom(c).c == c
  {
  }

  lemma PrefixElements<T>(e: seq<T>, g: seq<T>)
    requires |e| >= |g| && e[..|g|] == g
    ensures forall k :: 0 <= k < |g| ==> e[k] == g[k]
  {
    forall k | 0 <= k < |g|
      ensures e[k] == g[k]
    {
      assert e[..|g|][k] == e[k];
    }
  }

  lemma {:induction false} JoinAndUnchanged(u: string)
    requires !IsSubstring(" AND ", u)
    ensures JoinAnd(EscapeAtoms(u)) == EscapeAtoms(u)
    decreases |u|
  {
    if u != [] {
      var e := EscapeAtoms(u);
      if |e| >= 5 && e[..5] == AndGroup {
        EscapeAtomsGroup(u);
        assert OccursAt(" AND ", u, 0);
      }
      assert e[1..] == EscapeAtoms(u[1..]);
      forall i | 0 <= i <= |u[1..]| - 5 && OccursAt(" AND ", u[1..], i) ensures false {
        assert u[1..][i..i + 5] == u[i + 1..i + 6];
        assert OccursAt(" AND ", u, i + 1);
      }
      JoinAndUnchanged(u[1..]);
    }
  }

  lemma {:induction false} PossessiveUnchanged(u: string)
    requires forall i :: 0 <= i < |u| - 1 ==> !(u[i] == 'S' && IsRegexSpecial(u[i + 1]))
    ensures Possessive(EscapeAtoms(u)) == EscapeAtoms(u)
    decreases |u|
  {
    if u != [] {
      var e := EscapeAtoms(u);
      assert !(|e| >= 2 && e[0] == Lit('S') && e[1].Esc?);
      assert e[1..] == EscapeAtoms(u[1..]);
      PossessiveUnchanged(u[1..]);
    }
  }

  lemma PlainAtomFixed(c: char)
    requires !IsOptionalMark(c)
    ensures LoosenAtom(EscapeAtom(c)) == EscapeAtom(c)
  {
    EscapeAtomChar(c);
  }

  lemma LoosenUnchanged(u: string)
    requires forall i :: 0 <= i < |u| ==> !IsOptionalMark(u[i])
    ensures Loosen(EscapeAtoms(u)) == EscapeAtoms(u)
  {
    var e := EscapeAtoms(u);
    LoosenIsMap(e);
    var m := MapLoosen(e);
    forall i | 0 <= i < |e| ensures m[i] == e[i] {
      PlainAtomFixed(u[i]);
    }
    assert m == e;
  }

  /** For a title whose upper-cased form has no quotes or optional marks, no ` AND `
      and no `S` before a special character, the pattern is `re.escape` of the
      upper-cased title. */
  lemma PlainTitle(title: string)
    requires forall i :: 0 <= i < |Upper(title)| ==>
      StraightQuote(Upper(title)[i]) == Upper(title)[i] && !IsOptionalMark(Upper(title)[i])
    requires !IsSubstring(" AND ", Upper(title))
    requires forall i :: 0 <= i < |Upper(title)| - 1 ==> !(Upper(title)[i] == 'S' && IsRegexSpecial(Upper(title)[i + 1]))
    ensures EscapeTitle(title) == ReEscape(Upper(title))
  {
    var u := Upper(title);
    CompileBridge(title);
    if title != [] {
      StraightenUnchanged(u);
      var e := EscapeAtoms(u);
      JoinAndUnchanged(u);
      LoosenUnchanged(u);
      PossessiveUnchanged(u);
      assert CompileAtoms(title) == e;
      EscapeBridge(u);
    }
  }

  lemma UpperTestEpisode()
    ensures Upper("Test Episode") == "TEST EPISODE"
  {
    var u := Upper("Test Episode");
    assert u[0] == 'T' && u[1] == 'E' && u[2] == 'S' && u[3] == 'T' && u[4] == ' ';
    assert u[5] == 'E' && u[6] == 'P' && u[7] == 'I' && u[8] == 'S' && u[9] == 'O';
    assert u[10] == 'D' && u[11] == 'E';
  }

  lemma {:induction false} ReEscapeAppend(a: string, b: string)
    ensures ReEscape(a + b) == ReEscape(a) + ReEscape(b)
  {
    if a != [] {
      assert (a + b)[1..] == a[1..] + b;
      ReEscapeAppend(a[1..], b);
    } else {
      assert a + b == b;
    }
  }

  lemma {:induction false} ReEscapePlain(s: string)
    requires forall i :: 0 <= i < |s| ==> !IsRegexSpecial(s[i])
    ensures ReEscape(s) == s
  {
    if s != [] {
      ReEscapePlain(s[1..]);
    }
  }

  lemma SpaceEscaped()
    ensures ReEscape(" ") == "\\ "
  {
  }

  lemma EscapedWords(a: string, b: string, ea: string, eb: string)
    requires ReEscape(a) == ea && ReEscape(b) == eb
    ensures ReEscape(a + " " + b) == ea + "\\ " + eb
  {
    var sb := " " + b;
    ReEscapeAppend(" ", b);
    SpaceEscaped();
    ReEscapeAppend(a, sb);
    assert a + " " + b == a + sb;
  }

  predicate CapitalLetters(w: string)
  {
    forall i :: 0 <= i < |w| ==> 'A' <= w[i] <= 'Z'
  }

  lemma TwoWordsSpace(u: string, a: string, b: string)
    requires u == a + " " + b && CapitalLetters(a) && CapitalLetters(b)
    ensures forall k :: 0 <= k < |u| && u[k] == ' ' ==> k == |a|
    ensures forall i :: 0 <= i < |u| ==> StraightQuote(u[i]) == u[i] && !IsOptionalMark(u[i])
  {
    forall k | 0 <= k < |u| && k != |a| ensures 'A' <= u[k] <= 'Z' {
      if k < |a| { assert u[k] == a[k]; } else { assert u[k] == b[k - |a| - 1]; }
    }
  }

  lemma TwoWordsNoAnd(u: string, a: string)
    requires forall k :: 0 <= k < |u| && u[k] == ' ' ==> k == |a|
    ensures !IsSubstring(" AND ", u)
  {
    forall i | 0 <= i <= |u| - 5 ensures !OccursAt(" AND ", u, i) {
      assert u[i..i + 5][0] == u[i] && u[i..i + 5][4] == u[i + 4];
    }
  }

  lemma TwoWordsNoPossessive(u: string, a: string, b: string)
    requires u == a + " " + b && CapitalLetters(a) && CapitalLetters(b)
    requires |a| > 0 ==> a[|a| - 1] != 'S'
    ensures forall i :: 0 <= i < |u| - 1 ==> !(u[i] == 'S' && IsRegexSpecial(u[i + 1]))
  {
    forall i | 0 <= i < |u| - 1 ensures !(u[i] == 'S' && IsRegexSpecial(u[i + 1])) {
      if i + 1 < |a| { assert u[i + 1] == a[i + 1]; }
      else if i + 1 > |a| { assert u[i + 1] == b[i - |a|]; }
      else { assert u[i] == a[|a| - 1]; }
    }
  }

  /** A title made of two words of capital letters joined by a space, the first not
      ending in `S`, compiles to the two words joined by an escaped space. */
  lemma TwoWordsPlain(title: string, a: string, b: string)
    requires Upper(title) == a + " " + b
    requires CapitalLetters(a) && CapitalLetters(b)
    requires |a| > 0 ==> a[|a| - 1] != 'S'
    ensures EscapeTitle(title) == ReEscape(a + " " + b)
  {
    var u := Upper(title);
    TwoWordsSpace(u, a, b);
    TwoWordsNoAnd(u, a);
    TwoWordsNoPossessive(u, a, b);
    PlainTitle(title);
  }

  lemma TwoWordTitle(title: string, a: string, b: string)
    requires Upper(title) == a + " " + b
    requires CapitalLetters(a) && CapitalLetters(b)
    requires |a| > 0 ==> a[|a| - 1] != 'S'
    ensures EscapeTitle(title) == a + "\\ " + b
  {
    TwoWordsPlain(title, a, b);
    CapitalWordEscaped(a);
    CapitalWordEscaped(b);
    EscapedWords(a, b, a, b);
  }

  lemma CapitalWordEscaped(w: string)
    requires CapitalLetters(w)
    ensures ReEscape(w) == w
  {
    ReEscapePlain(w);
  }

  lemma TestEpisodeWordsCapital(a: string, b: string)
    requires a == "TEST" && b == "EPISODE"
    ensures CapitalLetters(a) && CapitalLetters(b)
  {
    forall i | 0 <= i < |a| ensures 'A' <= a[i] <= 'Z' {
      assert i == 0 || i == 1 || i == 2 || i == 3;
    }
    forall i | 0 <= i < |b| ensures 'A' <= b[i] <= 'Z' {
      assert i == 0 || i == 1 || i == 2 || i == 3 || i == 4 || i == 5 || i == 6;
    }
  }

  lemma TestEpisodeWords(r: string)
    requires r == "TEST\\ EPISODE"
    ensures OccursAt("TEST", r, 0) && OccursAt("EPISODE", r, 6)
  {
    assert r[0..4] == "TEST";
    assert r[6..13] == "EPISODE";
  }

  /** The example of the test suite: "Test Episode" compiles to `TEST\ EPISODE`,
      which contains "TEST" and "EPISODE". */
  lemma TestEpisodeExample()
    ensures EscapeTitle("Test Episode") == "TEST\\ EPISODE"
    ensures IsSubstring("TEST", EscapeTitle("Test Episode"))
    ensures IsSubstring("EPISODE", EscapeTitle("Test Episode"))
  {
    var a, b := "TEST", "EPISODE";
    UpperTestEpisode();
    assert Upper("Test Episode") == a + " " + b;
    TestEpisodeWordsCapital(a, b);
    TwoWordTitle("Test Episode", a, b);
    assert a + "\\ " + b == "TEST\\ EPISODE";
    TestEpisodeWords("TEST\\ EPISODE");
  }
}
