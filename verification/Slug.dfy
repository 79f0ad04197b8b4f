/** Service slugs: the slug of a name, and the numbered candidates tried until one is free. */
module Slug {

  predicate IsAlnum(c: char)
  {
    'a' <= c <= 'z' || '0' <= c <= '9'
  }

  /** strings.ToLower on one character, as far as its result can be a letter a-z or a digit. */
  function Lower(c: char): char
  {
    if 'A' <= c <= 'Z' then (c as int + 32) as char
    else if c == '\U{212A}' then 'k'     // Kelvin sign
    else if c == '\U{0130}' then 'i'     // capital I with dot
    else c
  }

  function LowerAll(s: string): (r: string)
    ensures |r| == |s| && forall i | 0 <= i < |s| :: r[i] == Lower(s[i])
  {
    seq(|s|, i requires 0 <= i < |s| => Lower(s[i]))
  }

  predicate IsWord(w: string)
  {
    w != "" && forall i | 0 <= i < |w| :: IsAlnum(w[i])
  }

  /** The maximal runs of letters and digits, in order. */
  function Words(s: string): (ws: seq<string>)
    ensures forall i | 0 <= i < |ws| :: IsWord(ws[i])
    ensures s != [] && IsAlnum(s[|s| - 1]) ==> ws != []
  {
    if s == [] then []
    else
      var front, c := s[..|s| - 1], s[|s| - 1];
      var ws := Words(front);
      if !IsAlnum(c) then ws
      else if front != [] && IsAlnum(front[|front| - 1]) then ws[|ws| - 1 := ws[|ws| - 1] + [c]]
      else ws + [[c]]
  }

  function Join(ws: seq<string>): string
  {
    if ws == [] then ""
    else if |ws| == 1 then ws[0]
    else Join(ws[..|ws| - 1]) + "-" + ws[|ws| - 1]
  }

  /** The words of a name, lower-cased and joined by dashes. */
  function SlugOf(name: string): string
  {
    Join(Words(LowerAll(name)))
  }

  function TrimDashes(s: string): string
  {
    if s == [] then []
    else if s[0] == '-' then TrimDashes(s[1..])
    else if s[|s| - 1] == '-' then TrimDashes(s[..|s| - 1])
    else s
  }

  lemma JoinExtend(ws: seq<string>, c: char)
    requires ws != []
    ensures Join(ws[|ws| - 1 := ws[|ws| - 1] + [c]]) == Join(ws) + [c]
  {
    var ws' := ws[|ws| - 1 := ws[|ws| - 1] + [c]];
    assert ws'[..|ws| - 1] == ws[..|ws| - 1];
    if |ws| > 1 {
      assert Join(ws[..|ws| - 1]) + "-" + (ws[|ws| - 1] + [c]) == Join(ws[..|ws| - 1]) + "-" + ws[|ws| - 1] + [c];
    }
  }

  lemma JoinSnoc(ws: seq<string>, w: string)
    ensures Join(ws + [w]) == if ws == [] then w else Join(ws) + "-" + w
  {
    assert (ws + [w])[..|ws|] == ws;
  }

  /** A slug: letters, digits and single dashes, with none at either end. */
  predicate IsSlug(s: string)
  {
    && (forall c | c in s :: IsAlnum(c) || c == '-')
    && (s != [] ==> s[0] != '-' && s[|s| - 1] != '-')
    && (forall i | 0 <= i < |s| - 1 :: s[i] != '-' || s[i + 1] != '-')
  }

  lemma {:induction false} JoinIsSlug(ws: seq<string>)
    requires forall i | 0 <= i < |ws| :: IsWord(ws[i])
    ensures IsSlug(Join(ws)) && (ws != [] ==> Join(ws) != [])
  {
    if |ws| == 1 {
      assert IsWord(ws[0]);
    } else if |ws| > 1 {
      var front, w := ws[..|ws| - 1], ws[|ws| - 1];
      JoinIsSlug(front);
      assert IsWord(w);
      var f := Join(front);
      var r := f + "-" + w;
      assert forall i | 0 <= i < |r| :: r[i] == if i < |f| then f[i] else if i == |f| then '-' else w[i - |f| - 1];
    }
  }

  class Builder {
    /** The loop of slugify: a builder, and whether its last character is a dash. */
    static method Slugify(name: string) returns (slug: string)
      ensures slug == SlugOf(name)
    {
      var lowered := LowerAll(name);
      var b := "";
      var dash := false;
      for i := 0 to |lowered|
        invariant Built(b, dash, lowered[..i])
      {
        ghost var before := b;
        assert lowered[..i + 1] == lowered[..i] + [lowered[i]];
        BuiltStep(b, dash, lowered[..i], lowered[i]);
        if IsAlnum(lowered[i]) {
          b := b + [lowered[i]];
          dash := false;
        } else if |b| > 0 && !dash {
          b := b + "-";
          dash := true;
        }
      }
      assert lowered[..|lowered|] == lowered;
      BuiltTrims(b, dash, lowered);
      slug := TrimDashes(b);
    }
  }

  /** The builder holds the words so far, and a pending dash once one has ended. */
  ghost predicate Built(b: string, dash: bool, done: string)
  {
    && b == Join(Words(done)) + (if dash then "-" else "")
    && dash == (Words(done) != [] && !IsAlnum(done[|done| - 1]))
  }

  lemma BuiltStep(b: string, dash: bool, done: string, c: char)
    requires Built(b, dash, done)
    ensures IsAlnum(c) ==> Built(b + [c], false, done + [c])
    ensures !IsAlnum(c) && |b| > 0 && !dash ==> Built(b + "-", true, done + [c])
    ensures !IsAlnum(c) && !(|b| > 0 && !dash) ==> Built(b, dash, done + [c])
  {
    assert (done + [c])[..|done|] == done;
    JoinIsSlug(Words(done));
    if IsAlnum(c) {
      if done != [] && IsAlnum(done[|done| - 1]) {
        JoinExtend(Words(done), c);
      } else {
        JoinSnoc(Words(done), [c]);
      }
    }
  }

  lemma BuiltTrims(b: string, dash: bool, done: string)
    requires Built(b, dash, done)
    ensures TrimDashes(b) == Join(Words(done))
  {
    JoinIsSlug(Words(done));
    var j := Join(Words(done));
    if dash {
      assert b == j + "-" && b[0] == j[0] && b[..|b| - 1] == j;
    } else {
      assert b == j;
    }
  }

  lemma SlugIsSlug(name: string)
    ensures IsSlug(SlugOf(name))
  {
    JoinIsSlug(Words(LowerAll(name)));
  }

  predicate SlugPrefix(s: string)
  {
    && (forall i | 0 <= i < |s| :: IsAlnum(s[i]) || s[i] == '-')
    && (s != [] ==> s[0] != '-')
    && (forall i | 0 <= i < |s| - 1 :: s[i] != '-' || s[i + 1] != '-')
  }

  function Trail(s: string): string
  {
    if s != [] && s[|s| - 1] == '-' then "-" else ""
  }

  predicate Rebuilt(s: string)
  {
    s == Join(Words(s)) + Trail(s) && (s != [] ==> Words(s) != [])
  }

  lemma RebuiltWithLetter(front: string, c: char)
    requires Rebuilt(front) && IsAlnum(c)
    requires front != [] ==> IsAlnum(front[|front| - 1]) || front[|front| - 1] == '-'
    ensures Rebuilt(front + [c])
  {
    var ws := Words(front);
    assert (front + [c])[..|front|] == front;
    if front != [] && IsAlnum(front[|front| - 1]) {
      JoinExtend(ws, c);
      assert Words(front + [c]) == ws[|ws| - 1 := ws[|ws| - 1] + [c]];
    } else {
      JoinSnoc(ws, [c]);
      assert Words(front + [c]) == ws + [[c]];
    }
  }

  lemma RebuiltWithDash(front: string)
    requires Rebuilt(front) && front != [] && front[|front| - 1] != '-'
    ensures Rebuilt(front + "-")
  {
    assert (front + "-")[..|front|] == front;
  }

  /** Rebuilding the words of a slug's prefix gives the prefix back, but for a dash it ends in. */
  lemma {:induction false} PrefixRebuilt(s: string)
    requires SlugPrefix(s)
    ensures Rebuilt(s)
  {
    if s != [] {
      var front, c := s[..|s| - 1], s[|s| - 1];
      assert s == front + [c];
      PrefixRebuilt(front);
      assert front != [] ==> front[|front| - 1] == s[|s| - 2];
      if c == '-' {
        RebuiltWithDash(front);
      } else {
        RebuiltWithLetter(front, c);
      }
    }
  }

  /** Slugging is idempotent, and keeps any string that is already a slug. */
  lemma SlugIsIdempotent(name: string)
    ensures SlugOf(SlugOf(name)) == SlugOf(name)
  {
    SlugIsSlug(name);
    SlugKeepsSlug(SlugOf(name));
  }

  lemma SlugKeepsSlug(s: string)
    requires IsSlug(s)
    ensures SlugOf(s) == s
  {
    assert forall i | 0 <= i < |s| :: s[i] in s;
    assert LowerAll(s) == s;
    PrefixRebuilt(s);
  }

  // ---- letters

  /** The letters and digits of a text, in order. */
  function Letters(s: string): string
  {
    if s == [] then [] else Letters(s[..|s| - 1]) + if IsAlnum(s[|s| - 1]) then [s[|s| - 1]] else []
  }

  function Concat(ws: seq<string>): string
  {
    if ws == [] then [] else Concat(ws[..|ws| - 1]) + ws[|ws| - 1]
  }

  lemma {:induction false} LettersConcat(a: string, b: string)
    ensures Letters(a + b) == Letters(a) + Letters(b)
    decreases |b|
  {
    if b == [] {
      assert a + b == a;
    } else {
      assert (a + b)[..|a + b| - 1] == a + b[..|b| - 1];
      LettersConcat(a, b[..|b| - 1]);
    }
  }

  lemma {:induction false} LettersOfWord(w: string)
    requires forall i | 0 <= i < |w| :: IsAlnum(w[i])
    ensures Letters(w) == w
  {
    if w != [] {
      LettersOfWord(w[..|w| - 1]);
      assert w == w[..|w| - 1] + [w[|w| - 1]];
    }
  }

  lemma LettersWithDash(s: string)
    ensures Letters(s + "-") == Letters(s)
  {
    assert (s + "-")[..|s|] == s;
  }

  lemma {:induction false} LettersOfJoin(ws: seq<string>)
    requires forall i | 0 <= i < |ws| :: IsWord(ws[i])
    ensures Letters(Join(ws)) == Concat(ws)
  {
    if |ws| == 1 {
      LettersOfWord(ws[0]);
      assert Concat(ws[..0]) == [];
    } else if |ws| > 1 {
      var front, w := ws[..|ws| - 1], ws[|ws| - 1];
      LettersOfJoin(front);
      assert IsWord(w);
      LettersOfWord(w);
      LettersWithDash(Join(front));
      LettersConcat(Join(front) + "-", w);
    }
  }

  lemma {:induction false} LettersOfWords(s: string)
    ensures Concat(Words(s)) == Letters(s)
  {
    if s != [] {
      var front, c := s[..|s| - 1], s[|s| - 1];
      var ws := Words(front);
      LettersOfWords(front);
      if IsAlnum(c) {
        if front != [] && IsAlnum(front[|front| - 1]) {
          var ws' := ws[|ws| - 1 := ws[|ws| - 1] + [c]];
          assert ws'[..|ws'| - 1] == ws[..|ws| - 1];
          assert Concat(ws') == Concat(ws[..|ws| - 1]) + (ws[|ws| - 1] + [c]);
          assert Concat(ws') == Concat(ws) + [c];
        } else {
          assert (ws + [[c]])[..|ws|] == ws;
        }
      }
    }
  }

  /** A slug keeps every letter and digit of the name, in order and lower-cased, and adds only dashes. */
  lemma SlugKeepsLetters(name: string)
    ensures Letters(SlugOf(name)) == Letters(LowerAll(name))
    ensures forall i | 0 <= i < |name| && 'A' <= name[i] <= 'Z' :: LowerAll(name)[i] as int == name[i] as int + 32
    ensures forall i | 0 <= i < |name| && (name[i] < 'A' || 'Z' < name[i] < '\U{0080}') :: LowerAll(name)[i] == name[i]
  {
    LettersOfJoin(Words(LowerAll(name)));
    LettersOfWords(LowerAll(name));
  }

  // ---- candidates

  /** The number that decimal digits spell. */
  function Spelled(s: string): int
  {
    if s == [] then 0 else 10 * Spelled(s[..|s| - 1]) + (s[|s| - 1] as int - '0' as int)
  }

  /** A suffix is the number in decimal digits, without leading zeros. */
  lemma {:induction false} DecimalSpells(n: nat)
    ensures Spelled(Decimal(n)) == n && (n > 0 ==> Decimal(n)[0] != '0')
    ensures forall i | 0 <= i < |Decimal(n)| :: '0' <= Decimal(n)[i] <= '9'
  {
    if n >= 10 {
      DecimalSpells(n / 10);
      assert Decimal(n)[..|Decimal(n)| - 1] == Decimal(n / 10);
    } else {
      assert Decimal(n)[..0] == [];
    }
  }

  function Digit(d: nat): char
    requires d < 10
  {
    ('0' as int + d) as char
  }

  function Decimal(n: nat): (s: string)
    ensures s != ""
  {
    if n < 10 then [Digit(n)] else Decimal(n / 10) + [Digit(n % 10)]
  }

  lemma {:induction false} DecimalInjective(m: nat, n: nat)
    requires Decimal(m) == Decimal(n)
    ensures m == n
  {
    var s := Decimal(m);
    assert s[|s| - 1] == Digit(m % 10) == Digit(n % 10);
    if m >= 10 && n >= 10 {
      assert s[..|s| - 1] == Decimal(m / 10) && s[..|s| - 1] == Decimal(n / 10);
      DecimalInjective(m / 10, n / 10);
    }
  }

  const MAX_CANDIDATES := 1000

  function Candidate(base: string, i: nat): string
    requires i >= 1
  {
    if i == 1 then base else base + "-" + Decimal(i)
  }

  /** The first candidate is the slug itself; each further one adds a dash and its number. */
  lemma CandidateSpells(base: string, i: nat)
    requires i >= 1
    ensures i == 1 ==> Candidate(base, i) == base
    ensures i > 1 ==>
              var c := Candidate(base, i);
              |c| > |base| + 1 && c[..|base| + 1] == base + "-" && Spelled(c[|base| + 1..]) == i && c[|base| + 1] != '0'
  {
    if i > 1 {
      DecimalSpells(i);
      assert Candidate(base, i)[|base| + 1..] == Decimal(i);
    }
  }

  lemma CandidatesDiffer(base: string, i: nat, j: nat)
    requires 1 <= i < j
    ensures Candidate(base, i) != Candidate(base, j)
  {
    assert |Candidate(base, j)| > |base|;
    if i > 1 {
      assert Candidate(base, i)[|base| + 1..] == Decimal(i);
      assert Candidate(base, j)[|base| + 1..] == Decimal(j);
      if Decimal(i) == Decimal(j) { DecimalInjective(i, j); }
    }
  }

  /** The base slug of an offer's name; a name without letters or digits gets "app". */
  function Base(name: string): string
  {
    if SlugOf(name) == "" then "app" else SlugOf(name)
  }

  lemma {:induction false} CandidateCount(base: string, n: nat, cs: set<string>)
    requires cs == set i: nat | 1 <= i <= n :: Candidate(base, i)
    ensures |cs| == n
  {
    if n > 0 {
      var rest := set i: nat | 1 <= i <= n - 1 :: Candidate(base, i);
      assert cs == rest + {Candidate(base, n)};
      forall i: nat | 1 <= i <= n - 1 ensures Candidate(base, i) != Candidate(base, n) { CandidatesDiffer(base, i, n); }
      CandidateCount(base, n - 1, rest);
    }
  }

  lemma {:induction false} SubsetSize<T>(a: set<T>, b: set<T>)
    requires a <= b
    ensures |a| <= |b|
  {
    if a != {} {
      var x :| x in a;
      SubsetSize(a - {x}, b - {x});
    }
  }

  /** With fewer slugs taken than candidates, one candidate is free. */
  lemma SomeCandidateFree(base: string, taken: set<string>)
    requires |taken| < MAX_CANDIDATES
    ensures exists i :: 1 <= i <= MAX_CANDIDATES && Candidate(base, i) !in taken
  {
    var cs := set i: nat | 1 <= i <= MAX_CANDIDATES :: Candidate(base, i);
    CandidateCount(base, MAX_CANDIDATES, cs);
    if forall i: nat | 1 <= i <= MAX_CANDIDATES :: Candidate(base, i) in taken {
      SubsetSize(cs, taken);
    }
  }
}
