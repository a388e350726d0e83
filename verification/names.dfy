/** `normalizeName` (and its twin `normalize` in the older script): canonical
    decomposition, removal of diacritic marks, lower-casing.

    Unicode is modelled on a small alphabet: the decomposition table covers the
    Latin-1 letters with marks; the diacritic property covers `^`, `` ` ``,
    U+00A8, U+00AF, U+00B4, U+00B7 and U+00B8, the modifier letters and
    combining marks U+02B0..U+034E, U+0350..U+0357 and U+035D..U+0362 (so
    not U+034F nor U+0358..U+035C); and lower-casing covers ASCII and
    Latin-1 capitals. Every other character
    decomposes to itself, is no mark, and lower-cases to itself. */
module Names {
  import opened Js

  /** The `\p{Diacritic}` character class, restricted to the modelled alphabet. */
  predicate IsDiacritic(c: char) {
    || c == '^' || c == '`'
    || c == '\U{00A8}' || c == '\U{00AF}' || c == '\U{00B4}' || c == '\U{00B7}' || c == '\U{00B8}'
    || ('\U{02B0}' <= c <= '\U{034E}')
    || ('\U{0350}' <= c <= '\U{0357}')
    || ('\U{035D}' <= c <= '\U{0362}')
  }

  /** `toLowerCase` on one character. */
  function Lower(c: char): char {
    if 'A' <= c <= 'Z' then (c as int + 32) as char
    else if '\U{00C0}' <= c <= '\U{00DE}' && c != '\U{00D7}' then (c as int + 32) as char
    else c
  }

  /** The combining marks the Latin-1 letters decompose into. */
  const Grave := '\U{0300}'
  const Acute := '\U{0301}'
  const Circumflex := '\U{0302}'
  const Tilde := '\U{0303}'
  const Diaeresis := '\U{0308}'
  const RingAbove := '\U{030A}'
  const Cedilla := '\U{0327}'

  /** The canonical decomposition of the Latin-1 capital at offset `k` from
      U+00C0: its base letter and its combining mark, or None for the letters
      that do not decompose (Æ, Ð, ×, Ø, Þ, ß). */
  function LatinDecomposition(k: int): Option<(char, char)> {
    if 0 <= k <= 5 then Some(('A', [Grave, Acute, Circumflex, Tilde, Diaeresis, RingAbove][k]))
    else if k == 7 then Some(('C', Cedilla))
    else if 8 <= k <= 11 then Some(('E', [Grave, Acute, Circumflex, Diaeresis][k - 8]))
    else if 12 <= k <= 15 then Some(('I', [Grave, Acute, Circumflex, Diaeresis][k - 12]))
    else if k == 17 then Some(('N', Tilde))
    else if 18 <= k <= 22 then Some(('O', [Grave, Acute, Circumflex, Tilde, Diaeresis][k - 18]))
    else if 25 <= k <= 28 then Some(('U', [Grave, Acute, Circumflex, Diaeresis][k - 25]))
    else if k == 29 then Some(('Y', Acute))
    else None
  }

  /** `normalize('NFD')` on one character. Small letters U+00E0..U+00FD
      decompose like the capital 32 positions below them, with a small base. */
  function Decompose(c: char): seq<char> {
    var n := c as int;
    if n == 0xFF then ['y', Diaeresis]
    else if 0xC0 <= n < 0x100 then
      match LatinDecomposition((n - 0xC0) % 32)
      case None => [c]
      case Some(pair) => [if n < 0xE0 then pair.0 else Lower(pair.0), pair.1]
    else [c]
  }

  /** A character that normalization leaves alone: fully decomposed, no mark, lower case. */
  predicate IsNormal(c: char) {
    Decompose(c) == [c] && !IsDiacritic(c) && Lower(c) == c
  }

  lemma DecomposeIsFull(c: char)
    ensures forall i :: 0 <= i < |Decompose(c)| ==> Decompose(Decompose(c)[i]) == [Decompose(c)[i]]
  {
  }

  lemma LowerKeepsDecomposed(c: char)
    requires Decompose(c) == [c] && !IsDiacritic(c)
    ensures IsNormal(Lower(c))
  {
    var n := c as int;
    if 'A' <= c <= 'Z' {
      assert Lower(c) as int == n + 32;
    } else if 0xC0 <= n <= 0xDE && n != 0xD7 {
      assert (n - 0xC0) % 32 == n - 0xC0;
      assert LatinDecomposition(n - 0xC0).None?;
      assert Lower(c) as int == n + 32 && (n + 32 - 0xC0) % 32 == n - 0xC0;
    } else {
      assert Lower(c) == c;
    }
  }

  /** `normalize('NFD')` on a string. */
  function DecomposeAll(s: string): (r: string)
    ensures forall i :: 0 <= i < |r| ==> Decompose(r[i]) == [r[i]]
  {
    if s == [] then []
    else
      DecomposeIsFull(s[0]);
      Decompose(s[0]) + DecomposeAll(s[1..])
  }

  /** `.replace(/\p{Diacritic}/gu, '')`. */
  function StripDiacritics(s: string): (r: string)
    ensures forall i :: 0 <= i < |r| ==> !IsDiacritic(r[i])
    ensures (forall i :: 0 <= i < |s| ==> Decompose(s[i]) == [s[i]]) ==>
              forall i :: 0 <= i < |r| ==> Decompose(r[i]) == [r[i]]
  {
    if s == [] then []
    else if IsDiacritic(s[0]) then StripDiacritics(s[1..])
    else [s[0]] + StripDiacritics(s[1..])
  }

  /** `.toLowerCase()`. */
  function ToLower(s: string): string {
    seq(|s|, i requires 0 <= i < |s| => Lower(s[i]))
  }

  /** `normalizeName(name)` (fetch_games_new.js) and `normalize(str)`
      (fetch_games.js): every character of the result is a normal one. */
  function Normalize(s: string): (r: string)
    ensures forall i :: 0 <= i < |r| ==> IsNormal(r[i])
  {
    var d := StripDiacritics(DecomposeAll(s));
    LowerAllNormal(d);
    ToLower(d)
  }

  lemma LowerAllNormal(d: string)
    requires forall i :: 0 <= i < |d| ==> Decompose(d[i]) == [d[i]] && !IsDiacritic(d[i])
    ensures forall i :: 0 <= i < |ToLower(d)| ==> IsNormal(ToLower(d)[i])
  {
    forall i | 0 <= i < |d| ensures IsNormal(Lower(d[i])) {
      LowerKeepsDecomposed(d[i]);
    }
  }

  lemma {:induction false} DecomposeAllFixes(s: string)
    requires forall i :: 0 <= i < |s| ==> Decompose(s[i]) == [s[i]]
    ensures DecomposeAll(s) == s
  {
    if s != [] {
      DecomposeAllFixes(s[1..]);
    }
  }

  lemma {:induction false} StripFixes(s: string)
    requires forall i :: 0 <= i < |s| ==> !IsDiacritic(s[i])
    ensures StripDiacritics(s) == s
  {
    if s != [] {
      StripFixes(s[1..]);
    }
  }

  /** A string made of normal characters is its own normalization. */
  lemma NormalizeFixesNormal(s: string)
    requires forall i :: 0 <= i < |s| ==> IsNormal(s[i])
    ensures Normalize(s) == s
  {
    DecomposeAllFixes(s);
    StripFixes(s);
  }

  /** Normalizing twice is normalizing once. */
  lemma NormalizeIdempotent(s: string)
    ensures Normalize(Normalize(s)) == Normalize(s)
  {
    NormalizeFixesNormal(Normalize(s));
  }

  lemma {:induction false} DecomposeAllAppend(a: string, b: string)
    ensures DecomposeAll(a + b) == DecomposeAll(a) + DecomposeAll(b)
  {
    if a != [] {
      assert (a + b)[0] == a[0] && (a + b)[1..] == a[1..] + b;
      DecomposeAllAppend(a[1..], b);
      assert DecomposeAll(a + b) == Decompose(a[0]) + (DecomposeAll(a[1..]) + DecomposeAll(b));
    } else {
      assert a + b == b;
    }
  }

  lemma {:induction false} StripAppend(a: string, b: string)
    ensures StripDiacritics(a + b) == StripDiacritics(a) + StripDiacritics(b)
  {
    if a != [] {
      assert (a + b)[0] == a[0] && (a + b)[1..] == a[1..] + b;
      StripAppend(a[1..], b);
    } else {
      assert a + b == b;
    }
  }

  /** Normalization works character by character. */
  lemma NormalizeAppend(a: string, b: string)
    ensures Normalize(a + b) == Normalize(a) + Normalize(b)
  {
    DecomposeAllAppend(a, b);
    StripAppend(DecomposeAll(a), DecomposeAll(b));
  }

  /** On characters without accents normalization is plain lower-casing. */
  lemma NormalizeUnaccented(s: string)
    requires forall i :: 0 <= i < |s| ==> Decompose(s[i]) == [s[i]] && !IsDiacritic(s[i])
    ensures Normalize(s) == ToLower(s)
  {
    DecomposeAllFixes(s);
    StripFixes(s);
  }

  lemma NormalizeChar(c: char)
    ensures Normalize([c]) == NormalizeOne(c)
  {
    assert [c][1..] == [];
    assert DecomposeAll([c]) == Decompose(c) + DecomposeAll([]);
    assert DecomposeAll([]) == [];
    assert Decompose(c) + [] == Decompose(c);
  }

  lemma StripPair(b: char, m: char)
    requires !IsDiacritic(b) && IsDiacritic(m)
    ensures StripDiacritics([b, m]) == [b]
  {
    assert [b, m][1..] == [m];
    assert [m][1..] == [];
    assert StripDiacritics([m]) == StripDiacritics([]) == [];
    assert StripDiacritics([b, m]) == [b] + StripDiacritics([m]);
  }

  /** The character-level normalization, `normalizeName` on a one-character string. */
  function NormalizeOne(c: char): string {
    ToLower(StripDiacritics(Decompose(c)))
  }

  lemma LatinPairShape(k: int)
    requires LatinDecomposition(k).Some?
    ensures 'A' <= LatinDecomposition(k).value.0 <= 'Z'
    ensures IsDiacritic(LatinDecomposition(k).value.1)
  {
  }

  lemma LatinCapitalDecomposes(c: char, pair: (char, char))
    requires 0xC0 <= c as int <= 0xDE
    requires LatinDecomposition(c as int - 0xC0) == Some(pair)
    ensures 'A' <= pair.0 <= 'Z' && IsDiacritic(pair.1)
    ensures Decompose(c) == [pair.0, pair.1]
    ensures Decompose(Lower(c)) == [Lower(pair.0), pair.1]
  {
    var k := c as int - 0xC0;
    LatinPairShape(k);
    assert k % 32 == k;
    assert c as int != 0xD7;
    assert Lower(c) as int == c as int + 32;
    assert (Lower(c) as int - 0xC0) % 32 == k;
  }

  lemma BaseAndMark(b: char, m: char)
    requires 'A' <= b <= 'Z' && IsDiacritic(m)
    ensures ToLower(StripDiacritics([b, m])) == [Lower(b)]
    ensures ToLower(StripDiacritics([Lower(b), m])) == [Lower(b)]
  {
    StripPair(b, m);
    StripPair(Lower(b), m);
  }

  lemma LatinCapitalSameNormal(c: char, pair: (char, char))
    requires 0xC0 <= c as int <= 0xDE
    requires LatinDecomposition(c as int - 0xC0) == Some(pair)
    ensures NormalizeOne(Lower(c)) == NormalizeOne(c)
  {
    LatinCapitalDecomposes(c, pair);
    BaseAndMark(pair.0, pair.1);
  }

  lemma LatinPlainSameNormal(c: char)
    requires Decompose(c) == [c]
    ensures NormalizeOne(Lower(c)) == NormalizeOne(c)
  {
    var n := c as int;
    if 0xC0 <= n <= 0xDE && n != 0xD7 {
      assert (n - 0xC0) % 32 == n - 0xC0;
      assert Lower(c) as int == n + 32;
      assert (Lower(c) as int - 0xC0) % 32 == n - 0xC0;
    }
    assert Decompose(Lower(c)) == [Lower(c)];
    assert Lower(Lower(c)) == Lower(c);
    if IsDiacritic(c) {
      assert IsDiacritic(Lower(c));
    } else {
      assert StripDiacritics([c]) == [c];
      assert StripDiacritics([Lower(c)]) == [Lower(c)];
    }
  }

  lemma LowerCharSameNormal(c: char)
    ensures Normalize([Lower(c)]) == Normalize([c])
  {
    NormalizeChar(c);
    NormalizeChar(Lower(c));
    LowerOneSameNormal(c);
  }

  lemma LowerOneSameNormal(c: char)
    ensures NormalizeOne(Lower(c)) == NormalizeOne(c)
  {
    var n := c as int;
    if 0xC0 <= n <= 0xDE && n != 0xD7 && LatinDecomposition(n - 0xC0).Some? {
      LatinCapitalSameNormal(c, LatinDecomposition(n - 0xC0).value);
    } else if Lower(c) != c {
      if 0xC0 <= n <= 0xDE {
        assert (n - 0xC0) % 32 == n - 0xC0;
      }
      LatinPlainSameNormal(c);
    }
  }

  /** Case insensitivity: lower-casing first changes nothing. */
  lemma {:induction false} NormalizeIgnoresCase(s: string)
    ensures Normalize(ToLower(s)) == Normalize(s)
  {
    if s != [] {
      assert s == [s[0]] + s[1..];
      assert ToLower(s) == [Lower(s[0])] + ToLower(s[1..]);
      NormalizeAppend([s[0]], s[1..]);
      NormalizeAppend([Lower(s[0])], ToLower(s[1..]));
      LowerCharSameNormal(s[0]);
      NormalizeIgnoresCase(s[1..]);
    }
  }

  /** Accent insensitivity: removing the marks first changes nothing. */
  lemma NormalizeIgnoresMarks(s: string)
    ensures Normalize(StripDiacritics(DecomposeAll(s))) == Normalize(s)
  {
    var d := StripDiacritics(DecomposeAll(s));
    DecomposeAllFixes(d);
    StripFixes(d);
  }
}
