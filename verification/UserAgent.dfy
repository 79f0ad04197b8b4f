/** The User-Agent clean-up before a session row is stored: bytes in, valid UTF-8
    (RFC 3629 section 4) of bounded length out. */
module UserAgent {
  type Byte = x: int | 0 <= x < 256
  type Bytes = seq<Byte>

  const MAX_USER_AGENT_LEN := 512
  const REPLACEMENT: Bytes := [0xEF, 0xBF, 0xBD]

  predicate IsTail(b: Byte)
  {
    0x80 <= b <= 0xBF
  }

  /** The length of the UTF-8 character that starts `s`, or 0 when none does. */
  function RuneLen(s: Bytes): (n: nat)
    ensures n <= |s| && n <= 4
  {
    if s == [] then 0
    else if s[0] <= 0x7F then 1
    else if 0xC2 <= s[0] <= 0xDF then if |s| >= 2 && IsTail(s[1]) then 2 else 0
    else if 0xE0 <= s[0] <= 0xEF then
      if |s| >= 3 && IsTail(s[1]) && IsTail(s[2])
         && (s[0] == 0xE0 ==> s[1] >= 0xA0) && (s[0] == 0xED ==> s[1] <= 0x9F) then 3 else 0
    else if 0xF0 <= s[0] <= 0xF4 then
      if |s| >= 4 && IsTail(s[1]) && IsTail(s[2]) && IsTail(s[3])
         && (s[0] == 0xF0 ==> s[1] >= 0x90) && (s[0] == 0xF4 ==> s[1] <= 0x8F) then 4 else 0
    else 0
  }

  predicate ValidUtf8(s: Bytes)
  {
    s == [] || (RuneLen(s) > 0 && ValidUtf8(s[RuneLen(s)..]))
  }

  function RemoveNul(s: Bytes): Bytes
  {
    if s == [] then [] else (if s[0] == 0 then [] else [s[0]]) + RemoveNul(s[1..])
  }

  /** strings.ToValidUTF8: each run of bytes that start no character becomes one `repl`. */
  function ToValid(s: Bytes, repl: Bytes, inRun: bool): Bytes
    decreases |s|
  {
    if s == [] then []
    else if RuneLen(s) > 0 then s[..RuneLen(s)] + ToValid(s[RuneLen(s)..], repl, false)
    else (if inRun then [] else repl) + ToValid(s[1..], repl, true)
  }

  function Clean(ua: Bytes): Bytes
  {
    ToValid(RemoveNul(ua), REPLACEMENT, false)
  }

  function Sanitize(ua: Bytes): Bytes
  {
    var clean := Clean(ua);
    if |clean| > MAX_USER_AGENT_LEN then ToValid(clean[..MAX_USER_AGENT_LEN], [], false) else clean
  }

  // ---- what a character is

  /** A Unicode scalar value: any code point but the surrogates. */
  predicate IsScalar(c: int)
  {
    0 <= c < 0xD800 || 0xE000 <= c <= 0x10FFFF
  }

  /** Its UTF-8 form (RFC 3629 section 3). */
  function Encode(c: int): Bytes
    requires IsScalar(c)
  {
    if c < 0x80 then [c]
    else if c < 0x800 then [0xC0 + c / 64, 0x80 + c % 64]
    else if c < 0x1_0000 then [0xE0 + c / 4096, 0x80 + c / 64 % 64, 0x80 + c % 64]
    else [0xF0 + c / 262144, 0x80 + c / 4096 % 64, 0x80 + c / 64 % 64, 0x80 + c % 64]
  }

  lemma EncodedShort(c: int, rest: Bytes)
    requires IsScalar(c) && c < 0x800
    ensures RuneLen(Encode(c) + rest) == |Encode(c)|
  {
  }

  lemma EncodedThree(c: int, rest: Bytes)
    requires IsScalar(c) && 0x800 <= c < 0x1_0000
    ensures RuneLen(Encode(c) + rest) == 3
  {
    var s := Encode(c) + rest;
    assert c / 4096 * 64 + c / 64 % 64 == c / 64;
    assert s[0] == 0xE0 + c / 4096 && s[1] == 0x80 + c / 64 % 64 && s[2] == 0x80 + c % 64;
  }

  lemma EncodedFour(c: int, rest: Bytes)
    requires IsScalar(c) && 0x1_0000 <= c
    ensures RuneLen(Encode(c) + rest) == 4
  {
    var s := Encode(c) + rest;
    assert c / 262144 * 64 + c / 4096 % 64 == c / 4096;
    assert s[0] == 0xF0 + c / 262144 && s[1] == 0x80 + c / 4096 % 64 && s[2] == 0x80 + c / 64 % 64 &&
           s[3] == 0x80 + c % 64;
  }

  /** The six bits that a continuation byte adds. */
  function Low(b: int): int { b - 0x80 }

  /** The scalar value that the bytes of a character stand for. */
  function Decode(s: Bytes): int
    requires RuneLen(s) > 0
  {
    var lead: int := s[0];
    match RuneLen(s)
    case 1 => lead
    case 2 => (lead - 0xC0) * 64 + Low(s[1])
    case 3 => (lead - 0xE0) * 4096 + Low(s[1]) * 64 + Low(s[2])
    case _ => (lead - 0xF0) * 262144 + Low(s[1]) * 4096 + Low(s[2]) * 64 + Low(s[3])
  }

  lemma DecodeShort(s: Bytes)
    requires 1 <= RuneLen(s) <= 2
    ensures IsScalar(Decode(s)) && s[..RuneLen(s)] == Encode(Decode(s))
  {
  }

  lemma DecodeThree(s: Bytes)
    requires RuneLen(s) == 3
    ensures IsScalar(Decode(s)) && s[..3] == Encode(Decode(s))
  {
    var a: int, b: int, d: int, c := s[0] - 0xE0, Low(s[1]), Low(s[2]), Decode(s);
    assert c == (a * 64 + b) * 64 + d && c / 64 == a * 64 + b && c % 64 == d && c / 4096 == a && c / 64 % 64 == b;
  }

  lemma DecodeFour(s: Bytes)
    requires RuneLen(s) == 4
    ensures IsScalar(Decode(s)) && s[..4] == Encode(Decode(s))
  {
    var a: int, b: int, d: int, e: int, c := s[0] - 0xF0, Low(s[1]), Low(s[2]), Low(s[3]), Decode(s);
    assert c == ((a * 64 + b) * 64 + d) * 64 + e && c / 64 == (a * 64 + b) * 64 + d && c % 64 == e;
    assert c / 4096 == a * 64 + b && c / 64 % 64 == d && c / 262144 == a && c / 4096 % 64 == b;
  }

  /** A character starts a text exactly when the text begins with the UTF-8 form of a scalar value. */
  lemma RuneMeans(s: Bytes)
    ensures RuneLen(s) > 0 <==> exists c :: IsScalar(c) && Encode(c) <= s
    ensures forall c | IsScalar(c) && Encode(c) <= s :: RuneLen(s) == |Encode(c)|
  {
    if RuneLen(s) > 0 {
      if RuneLen(s) <= 2 { DecodeShort(s); } else if RuneLen(s) == 3 { DecodeThree(s); } else { DecodeFour(s); }
      assert IsScalar(Decode(s)) && Encode(Decode(s)) <= s;
    }
    forall c | IsScalar(c) && Encode(c) <= s ensures RuneLen(s) == |Encode(c)| {
      var rest := s[|Encode(c)|..];
      assert s == Encode(c) + rest;
      if c < 0x800 {
        EncodedShort(c, rest);
      } else if c < 0x1_0000 {
        EncodedThree(c, rest);
      } else {
        EncodedFour(c, rest);
      }
    }
  }

  // ---- characters and prefixes

  /** A character is recognised from its own bytes. */
  lemma RuneIsLocal(s: Bytes, t: Bytes)
    requires 0 < RuneLen(s) <= |t| && t[..RuneLen(s)] == s[..RuneLen(s)]
    ensures RuneLen(t) == RuneLen(s)
  {
    assert forall i | 0 <= i < RuneLen(s) :: t[i] == t[..RuneLen(s)][i] == s[i];
  }

  /** No character is a proper prefix of another. */
  lemma CutRune(s: Bytes, n: nat)
    requires 0 < n < RuneLen(s)
    ensures RuneLen(s[..n]) == 0
    ensures forall i | 1 <= i < n :: IsTail(s[i])
  {
  }

  lemma RuneBefore(a: Bytes, b: Bytes)
    requires RuneLen(a) > 0
    ensures RuneLen(a + b) == RuneLen(a) && (a + b)[RuneLen(a)..] == a[RuneLen(a)..] + b
  {
    assert (a + b)[..RuneLen(a)] == a[..RuneLen(a)];
    RuneIsLocal(a, a + b);
  }

  lemma {:induction false} ValidConcat(a: Bytes, b: Bytes)
    requires ValidUtf8(a) && ValidUtf8(b)
    ensures ValidUtf8(a + b)
    decreases |a|
  {
    if a == [] {
      assert a + b == b;
    } else {
      RuneBefore(a, b);
      ValidConcat(a[RuneLen(a)..], b);
    }
  }

  lemma ValidRune(s: Bytes)
    requires RuneLen(s) > 0
    ensures ValidUtf8(s[..RuneLen(s)])
  {
    var n := RuneLen(s);
    RuneIsLocal(s, s[..n]);
    assert s[..n][n..] == [];
  }

  // ---- ToValid

  lemma {:induction false} ToValidIsValid(s: Bytes, repl: Bytes, inRun: bool)
    requires ValidUtf8(repl)
    ensures ValidUtf8(ToValid(s, repl, inRun))
    decreases |s|
  {
    if s == [] {
    } else if RuneLen(s) > 0 {
      ToValidIsValid(s[RuneLen(s)..], repl, false);
      ValidRune(s);
      ValidConcat(s[..RuneLen(s)], ToValid(s[RuneLen(s)..], repl, false));
    } else {
      ToValidIsValid(s[1..], repl, true);
      ValidConcat(if inRun then [] else repl, ToValid(s[1..], repl, true));
    }
  }

  lemma {:induction false} ToValidKeepsValid(s: Bytes, repl: Bytes, inRun: bool)
    requires ValidUtf8(s)
    ensures ToValid(s, repl, inRun) == s
    decreases |s|
  {
    if s == [] {
    } else {
      ToValidKeepsValid(s[RuneLen(s)..], repl, false);
      assert s == s[..RuneLen(s)] + s[RuneLen(s)..];
    }
  }

  lemma {:induction false} ToValidAddsNoNul(s: Bytes, repl: Bytes, inRun: bool)
    requires 0 !in s && 0 !in repl
    ensures 0 !in ToValid(s, repl, inRun)
    decreases |s|
  {
    if s == [] {
    } else if RuneLen(s) > 0 {
      ToValidAddsNoNul(s[RuneLen(s)..], repl, false);
    } else {
      ToValidAddsNoNul(s[1..], repl, true);
    }
  }

  lemma {:induction false} TailsVanish(s: Bytes, inRun: bool)
    requires forall i | 0 <= i < |s| :: IsTail(s[i])
    ensures ToValid(s, [], inRun) == []
    decreases |s|
  {
    if s == [] {
    } else {
      TailsVanish(s[1..], true);
    }
  }

  /** The end of the last whole character within the first `n` bytes. */
  function Boundary(s: Bytes, n: nat): (k: nat)
    requires ValidUtf8(s) && n <= |s|
    ensures k <= n
    decreases |s|
  {
    if s == [] || RuneLen(s) > n then 0
    else RuneLen(s) + Boundary(s[RuneLen(s)..], n - RuneLen(s))
  }

  lemma CutStarts(s: Bytes, n: nat)
    requires 0 < RuneLen(s) <= n <= |s|
    ensures RuneLen(s[..n]) == RuneLen(s)
    ensures s[..n][..RuneLen(s)] == s[..RuneLen(s)] && s[..n][RuneLen(s)..] == s[RuneLen(s)..][..n - RuneLen(s)]
  {
    RuneIsLocal(s, s[..n]);
  }

  /** Fewer bytes than a character: nothing of it is kept. */
  lemma PartOfRune(s: Bytes, n: nat, inRun: bool)
    requires n < RuneLen(s)
    ensures ToValid(s[..n], [], inRun) == []
  {
    if n > 0 {
      CutRune(s, n);
      TailsVanish(s[..n][1..], true);
    }
  }

  lemma {:induction false} CutIsBoundary(s: Bytes, n: nat, inRun: bool)
    requires ValidUtf8(s) && n <= |s|
    ensures ToValid(s[..n], [], inRun) == s[..Boundary(s, n)]
    decreases |s|
  {
    var k := RuneLen(s);
    if s == [] {
    } else if k > n {
      PartOfRune(s, n, inRun);
    } else {
      CutIsBoundary(s[k..], n - k, false);
      CutStarts(s, n);
      assert ToValid(s[..n], [], inRun) == s[..k] + ToValid(s[k..][..n - k], [], false);
      PrefixSplits(s, k, Boundary(s[k..], n - k));
    }
  }

  lemma PrefixSplits(s: Bytes, k: nat, b: nat)
    requires k + b <= |s|
    ensures s[..k + b] == s[..k] + s[k..][..b]
  {
  }

  lemma ValidExtended(s: Bytes, b: nat)
    requires RuneLen(s) > 0 && RuneLen(s) + b <= |s| && ValidUtf8(s[RuneLen(s)..][..b])
    ensures ValidUtf8(s[..RuneLen(s) + b])
  {
    ValidRune(s);
    ValidConcat(s[..RuneLen(s)], s[RuneLen(s)..][..b]);
    PrefixSplits(s, RuneLen(s), b);
  }

  lemma {:induction false} BoundaryIsValid(s: Bytes, n: nat)
    requires ValidUtf8(s) && n <= |s|
    ensures ValidUtf8(s[..Boundary(s, n)])
    decreases |s|
  {
    var k := RuneLen(s);
    if s == [] || k > n {
      assert s[..0] == [];
    } else {
      BoundaryIsValid(s[k..], n - k);
      ValidExtended(s, Boundary(s[k..], n - k));
    }
  }

  lemma {:induction false} BoundaryIsNear(s: Bytes, n: nat)
    requires ValidUtf8(s) && n <= |s|
    ensures n - Boundary(s, n) <= 3
    decreases |s|
  {
    if s != [] && RuneLen(s) <= n { BoundaryIsNear(s[RuneLen(s)..], n - RuneLen(s)); }
  }

  lemma {:induction false} PastBoundary(s: Bytes, n: nat, j: nat)
    requires ValidUtf8(s) && n <= |s| && Boundary(s, n) < j <= n
    ensures !ValidUtf8(s[..j])
    decreases |s|
  {
    var k := RuneLen(s);
    if k > n {
      CutRune(s, j);
    } else {
      PastBoundary(s[k..], n - k, j - k);
      RuneIsLocal(s, s[..j]);
      assert s[..j][k..] == s[k..][..j - k];
    }
  }

  /** The boundary is the longest valid prefix that fits, and at most 3 bytes short of the cap. */
  lemma BoundaryIsLongest(s: Bytes, n: nat)
    requires ValidUtf8(s) && n <= |s|
    ensures ValidUtf8(s[..Boundary(s, n)])
    ensures forall j | Boundary(s, n) < j <= n :: !ValidUtf8(s[..j])
    ensures n - Boundary(s, n) <= 3
  {
    BoundaryIsValid(s, n);
    BoundaryIsNear(s, n);
    forall j | Boundary(s, n) < j <= n ensures !ValidUtf8(s[..j]) { PastBoundary(s, n, j); }
  }

  // ---- Clean

  lemma {:induction false} RemoveNulRemoves(s: Bytes)
    ensures 0 !in RemoveNul(s)
    ensures 0 !in s ==> RemoveNul(s) == s
  {
    if s == [] {
    } else {
      RemoveNulRemoves(s[1..]);
      assert s == [s[0]] + s[1..];
    }
  }

  lemma {:induction false} RemoveNulConcat(a: Bytes, b: Bytes)
    ensures RemoveNul(a + b) == RemoveNul(a) + RemoveNul(b)
    decreases |a|
  {
    if a == [] {
      assert a + b == b;
    } else {
      assert (a + b)[1..] == a[1..] + b;
      RemoveNulConcat(a[1..], b);
    }
  }

  lemma {:induction false} ToValidKeepsPrefix(a: Bytes, b: Bytes, repl: Bytes)
    requires ValidUtf8(a)
    ensures ToValid(a + b, repl, false) == a + ToValid(b, repl, false)
    decreases |a|
  {
    if a == [] {
      assert a + b == b;
    } else {
      var n := RuneLen(a);
      RuneBefore(a, b);
      ToValidKeepsPrefix(a[n..], b, repl);
      assert (a + b)[..n] == a[..n];
      Rejoined(a, n, ToValid(b, repl, false));
    }
  }

  lemma Rejoined(a: Bytes, n: nat, c: Bytes)
    requires n <= |a|
    ensures a[..n] + (a[n..] + c) == a + c
  {
  }

  /** No character starts at any byte of `run` when `b` follows it, and `run` goes on as far as that holds. */
  ghost predicate InvalidRun(run: Bytes, b: Bytes)
  {
    && (forall i | 0 <= i < |run| :: RuneLen(run[i..] + b) == 0)
    && (b == [] || RuneLen(b) > 0)
  }

  lemma {:induction false} ToValidReplaces(run: Bytes, b: Bytes, repl: Bytes, inRun: bool)
    requires InvalidRun(run, b)
    ensures ToValid(run + b, repl, inRun) ==
            (if inRun || run == [] then [] else repl) + ToValid(b, repl, inRun && run == [])
    decreases |run|
  {
    if run == [] {
      assert run + b == b;
    } else {
      assert run[0..] == run;
      assert (run + b)[1..] == run[1..] + b;
      assert forall i | 0 <= i < |run| - 1 :: run[1..][i..] == run[i + 1..];
      ToValidReplaces(run[1..], b, repl, true);
      StartIgnoresRun(b, repl);
    }
  }

  /** Where a character starts, it makes no difference whether a run has just ended. */
  lemma StartIgnoresRun(b: Bytes, repl: Bytes)
    requires b == [] || RuneLen(b) > 0
    ensures ToValid(b, repl, true) == ToValid(b, repl, false)
  {
  }

  lemma RunHasNoNul(run: Bytes, b: Bytes)
    requires InvalidRun(run, b)
    ensures 0 !in run
  {
    forall i | 0 <= i < |run| ensures run[i] != 0 {
      assert (run[i..] + b)[0] == run[i];
    }
  }

  lemma NothingToRemove(a: Bytes, run: Bytes, b: Bytes)
    requires 0 !in a && 0 !in run && 0 !in b
    ensures RemoveNul(a + run + b) == a + (run + b) && RemoveNul(b) == b
  {
    RemoveNulRemoves(a + run + b);
    RemoveNulRemoves(b);
    Regrouped(a, run, b);
  }

  lemma Regrouped(a: Bytes, b: Bytes, c: Bytes)
    ensures a + b + c == a + (b + c)
  {
  }

  /** What is valid stands in its place, and each longest run of bytes that start no character becomes one
      replacement character. Cutting an input at its runs, this says what becomes of every input without NUL. */
  lemma CleanReplacesRuns(a: Bytes, run: Bytes, b: Bytes)
    requires ValidUtf8(a) && 0 !in a && 0 !in b && InvalidRun(run, b)
    ensures Clean(a + run + b) == a + (if run == [] then [] else REPLACEMENT) + Clean(b)
  {
    RunHasNoNul(run, b);
    NothingToRemove(a, run, b);
    ToValidKeepsPrefix(a, run + b, REPLACEMENT);
    ToValidReplaces(run, b, REPLACEMENT, false);
    Regrouped(a, if run == [] then [] else REPLACEMENT, Clean(b));
  }

  /** A NUL is dropped wherever it stands. */
  lemma CleanDropsNul(a: Bytes, b: Bytes)
    ensures Clean(a + [0] + b) == Clean(a + b)
  {
    var zero: Bytes := [0];
    RemoveNulConcat(a + zero, b);
    RemoveNulConcat(a, zero);
    RemoveNulConcat(a, b);
    assert RemoveNul(zero) == [] by { assert zero[1..] == []; }
    assert RemoveNul(a) + RemoveNul(zero) == RemoveNul(a);
    assert RemoveNul(a + zero + b) == RemoveNul(a + b);
  }

  // ---- Sanitize

  lemma CleanIsClean(ua: Bytes)
    ensures ValidUtf8(Clean(ua)) && 0 !in Clean(ua)
  {
    RemoveNulRemoves(ua);
    assert ValidUtf8(REPLACEMENT) by { assert REPLACEMENT[3..] == []; }
    ToValidIsValid(RemoveNul(ua), REPLACEMENT, false);
    ToValidAddsNoNul(RemoveNul(ua), REPLACEMENT, false);
  }

  /** Whatever the client sends, what is stored is valid UTF-8, has no NUL and fits the cap. */
  lemma SanitizeIsStorable(ua: Bytes)
    ensures ValidUtf8(Sanitize(ua)) && 0 !in Sanitize(ua) && |Sanitize(ua)| <= 512
  {
    CleanIsClean(ua);
    if |Clean(ua)| > MAX_USER_AGENT_LEN { SanitizeCutsAtCharacter(ua); }
  }

  /** A value that is already storable is stored as it is. */
  lemma SanitizeKeepsStorable(ua: Bytes)
    requires ValidUtf8(ua) && 0 !in ua && |ua| <= 512
    ensures Sanitize(ua) == ua
  {
    RemoveNulRemoves(ua);
    ToValidKeepsValid(ua, REPLACEMENT, false);
  }

  lemma SanitizeIsIdempotent(ua: Bytes)
    ensures Sanitize(Sanitize(ua)) == Sanitize(ua)
  {
    SanitizeIsStorable(ua);
    SanitizeKeepsStorable(Sanitize(ua));
  }

  /** When it cuts, it keeps the longest prefix of whole characters that fits, losing at most 3 bytes. */
  lemma SanitizeCutsAtCharacter(ua: Bytes)
    requires |Clean(ua)| > 512
    ensures var r := Sanitize(ua);
            && 509 <= |r| <= 512 && r == Clean(ua)[..|r|]
            && ValidUtf8(r) && 0 !in r
            && forall j | |r| < j <= 512 :: !ValidUtf8(Clean(ua)[..j])
  {
    CleanIsClean(ua);
    CutIsBoundary(Clean(ua), MAX_USER_AGENT_LEN, false);
    BoundaryIsLongest(Clean(ua), MAX_USER_AGENT_LEN);
  }
}
