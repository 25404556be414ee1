/** Words in any case, with white space around them, as the readers accept them. */
module Spelling {
  import opened Text

  /** The letter itself, or its capital. */
  predicate SameLetter(c: char, letter: char) {
    c == letter || (97 <= letter as int <= 122 && c as int == letter as int - 32)
  }

  /** The word in small letters, capitals or both. */
  predicate Spells(s: string, word: string) {
    |s| == |word| && forall i :: 0 <= i < |s| ==> SameLetter(s[i], word[i])
  }

  predicate NoCapitals(word: string) {
    forall i :: 0 <= i < |word| ==> !(65 <= word[i] as int <= 90)
  }

  lemma {:induction false} SpellsIff(s: string, word: string)
    requires NoCapitals(word)
    ensures Lower(s) == word <==> Spells(s, word)
  {
    if Lower(s) == word {
      forall i | 0 <= i < |s| ensures SameLetter(s[i], word[i]) {
        assert Lower(s)[i] == word[i];
      }
    }
    if Spells(s, word) {
      forall i | 0 <= i < |s| ensures Lower(s)[i] == word[i] {
        assert SameLetter(s[i], word[i]);
      }
    }
  }

  /** Nothing but white space before position i and from position j on, and the text between. */
  ghost predicate Between(s: string, i: nat, j: nat) {
    && i <= j <= |s|
    && (forall k :: 0 <= k < i ==> IsSpace(s[k])) && (forall k :: j <= k < |s| ==> IsSpace(s[k]))
  }

  /** Surrounded by white space. */
  ghost predicate IsTrimmed(s: string, core: string) {
    && (exists i: nat, j: nat :: Between(s, i, j) && core == s[i..j])
    && (core != "" ==> !IsSpace(core[0]) && !IsSpace(core[|core| - 1]))
  }

  lemma {:induction false} TrimPlace(s: string) returns (i: nat, j: nat)
    ensures Between(s, i, j) && Trim(s) == s[i..j]
  {
    var r := TrimStart(s);
    TrimStartSpec(s);
    TrimEndSpec(r);
    var e := TrimEnd(r);
    i := |s| - |r|;
    j := i + |e|;
    assert r == s[i..];
    assert e == r[..|e|] == s[i..j];
    forall k | 0 <= k < i ensures IsSpace(s[k]) {
      assert s[..i][k] == s[k];
    }
    forall k | j <= k < |s| ensures IsSpace(s[k]) {
      assert r[|e|..][k - j] == s[k];
    }
  }

  /** Trimming gives the text between the surrounding white space. */
  lemma {:induction false} TrimIff(s: string, core: string)
    ensures Trim(s) == core <==> IsTrimmed(s, core)
  {
    if Trim(s) == core {
      var i, j := TrimPlace(s);
      TrimTrimmed(s);
    }
    if IsTrimmed(s, core) {
      var i: nat, j: nat :| Between(s, i, j) && core == s[i..j];
      assert s == s[..i] + core + s[j..];
      TrimSurrounded(s[..i], core, s[j..]);
    }
  }

  /** The word in any case, with any white space around it. */
  ghost predicate SpellsTrimmed(s: string, word: string) {
    exists i: nat, j: nat :: Between(s, i, j) && Spells(s[i..j], word)
  }

  lemma {:induction false} LettersTrimmed(core: string, word: string)
    requires Spells(core, word) && NoCapitals(word) && Trimmed(word)
    ensures Trimmed(core)
  {
    if core != "" {
      assert SameLetter(core[0], word[0]) && SameLetter(core[|core| - 1], word[|word| - 1]);
    }
  }

  lemma {:induction false} SpellsTrimmedIff(s: string, word: string)
    requires NoCapitals(word) && Trimmed(word)
    ensures Lower(Trim(s)) == word <==> SpellsTrimmed(s, word)
  {
    if Lower(Trim(s)) == word {
      var i, j := TrimPlace(s);
      SpellsIff(Trim(s), word);
    }
    if SpellsTrimmed(s, word) {
      var i: nat, j: nat :| Between(s, i, j) && Spells(s[i..j], word);
      LettersTrimmed(s[i..j], word);
      assert IsTrimmed(s, s[i..j]);
      TrimIff(s, s[i..j]);
      SpellsIff(s[i..j], word);
    }
  }

  /** Some character is no white space. */
  ghost predicate NotBlank(s: string) {
    exists k :: 0 <= k < |s| && !IsSpace(s[k])
  }

  lemma {:induction false} NotBlankIff(s: string)
    ensures Trim(s) != "" <==> NotBlank(s)
  {
    var i, j := TrimPlace(s);
    TrimTrimmed(s);
    if Trim(s) != "" {
      assert !IsSpace(Trim(s)[0]) && Trim(s)[0] == s[i];
    }
  }

  /** White space, code point by code point. */
  lemma {:induction false} SpaceIff(c: char)
    ensures IsSpace(c) <==> c as int in {
      0x09, 0x0A, 0x0B, 0x0C, 0x0D, 0x20, 0xA0, 0x1680,
      0x2000, 0x2001, 0x2002, 0x2003, 0x2004, 0x2005, 0x2006, 0x2007, 0x2008, 0x2009, 0x200A,
      0x2028, 0x2029, 0x202F, 0x205F, 0x3000, 0xFEFF}
  {
  }
}
