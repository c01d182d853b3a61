/**
 * Text normalisation of person names: JavaScript's `trim` and `toLowerCase`,
 * restricted to the characters a roster or a blocked-date line is written in.
 */
module Names {

  /** The white-space characters `String.prototype.trim` removes (the Latin-1 and BOM part). */
  predicate IsSpace(c: char) {
    c in {' ', '\t', '\n', '\r', '\U{000B}', '\U{000C}', '\U{00A0}', '\U{FEFF}'}
  }

  predicate IsUpper(c: char) {
    'A' <= c <= 'Z'
  }

  function LowerChar(c: char): (r: char)
    ensures !IsUpper(r)
    ensures IsUpper(c) <==> r != c
  {
    if IsUpper(c) then (c as int + 32) as char else c
  }

  /** `toLowerCase` on the ASCII letters. */
  function ToLower(s: string): (r: string)
    ensures |r| == |s|
    ensures forall i :: 0 <= i < |s| ==> r[i] == LowerChar(s[i])
  {
    seq(|s|, i requires 0 <= i < |s| => LowerChar(s[i]))
  }

  /** Drops leading white space. */
  function TrimStart(s: string): string {
    if s != [] && IsSpace(s[0]) then TrimStart(s[1..]) else s
  }

  /** Drops trailing white space. */
  function TrimEnd(s: string): string {
    if s != [] && IsSpace(s[|s| - 1]) then TrimEnd(s[..|s| - 1]) else s
  }

  /** `trim`: white space removed at both ends. */
  function Trim(s: string): string {
    TrimEnd(TrimStart(s))
  }

  /** The lookup key of a name: trimmed, then lower-cased. */
  function Key(name: string): string {
    ToLower(Trim(name))
  }

  /** What `TrimStart` returns is a suffix of its input that does not start with white space. */
  lemma {:induction false} TrimStartIsSuffix(s: string)
    ensures |TrimStart(s)| <= |s| && TrimStart(s) == s[|s| - |TrimStart(s)|..]
    ensures TrimStart(s) != [] ==> !IsSpace(TrimStart(s)[0])
    ensures forall i :: 0 <= i < |s| - |TrimStart(s)| ==> IsSpace(s[i])
  {
    if s != [] && IsSpace(s[0]) {
      var t := s[1..];
      TrimStartIsSuffix(t);
      assert TrimStart(s) == TrimStart(t);
      assert t[|t| - |TrimStart(t)|..] == s[|s| - |TrimStart(s)|..];
      forall j | 0 <= j < |s| - |TrimStart(s)|
        ensures IsSpace(s[j])
      {
        if j > 0 {
          assert s[j] == t[j - 1];
        }
      }
    } else {
      assert s[0..] == s;
    }
  }

  /** What `TrimEnd` returns is a prefix of its input that does not end with white space. */
  lemma {:induction false} TrimEndIsPrefix(s: string)
    ensures |TrimEnd(s)| <= |s| && TrimEnd(s) == s[..|TrimEnd(s)|]
    ensures TrimEnd(s) != [] ==> !IsSpace(TrimEnd(s)[|TrimEnd(s)| - 1])
    ensures forall i :: |TrimEnd(s)| <= i < |s| ==> IsSpace(s[i])
  {
    if s != [] && IsSpace(s[|s| - 1]) {
      TrimEndIsPrefix(s[..|s| - 1]);
    }
  }

  /** Where the trimmed name lies in the name: after the white space `TrimStart` drops, for `|Trim(s)|` characters. */
  lemma TrimPosition(s: string)
    ensures var i := |s| - |TrimStart(s)|;
      && 0 <= i && i + |Trim(s)| <= |s| && Trim(s) == s[i..i + |Trim(s)|]
      && (forall k :: 0 <= k < i ==> IsSpace(s[k]))
      && (forall k :: i + |Trim(s)| <= k < |s| ==> IsSpace(s[k]))
  {
    var t := TrimStart(s);
    TrimStartIsSuffix(s);
    TrimEndIsPrefix(t);
    var i := |s| - |t|;
    var u := TrimEnd(t);
    assert u == s[i..i + |u|] by {
      assert u == t[..|u|];
    }
    forall k | i + |u| <= k < |s|
      ensures IsSpace(s[k])
    {
      assert s[k] == t[k - i];
    }
  }

  /**
   * `trim` removes white space at both ends and nothing else: the result is a
   * contiguous part of the input, every character cut off is white space, and
   * the result neither starts nor ends with white space.
   */
  lemma TrimIsInnerPart(s: string)
    ensures exists i, j ::
      && 0 <= i <= j <= |s| && Trim(s) == s[i..j]
      && (forall k :: 0 <= k < i ==> IsSpace(s[k]))
      && (forall k :: j <= k < |s| ==> IsSpace(s[k]))
    ensures Trim(s) != [] ==> !IsSpace(Trim(s)[0]) && !IsSpace(Trim(s)[|Trim(s)| - 1])
  {
    TrimPosition(s);
    var t := TrimStart(s);
    TrimStartIsSuffix(s);
    TrimEndIsPrefix(t);
    var i := |s| - |t|;
    var j := i + |Trim(s)|;
    assert 0 <= i <= j <= |s| && Trim(s) == s[i..j];
    if Trim(s) != [] {
      assert Trim(s)[0] == t[0];
    }
  }

  /** Trimming keeps only characters of the input. */
  lemma TrimChars(s: string)
    ensures forall c :: c in Trim(s) ==> c in s
  {
    TrimPosition(s);
  }

  /** Trimming twice is trimming once. */
  lemma TrimIdempotent(s: string)
    ensures Trim(Trim(s)) == Trim(s)
  {
    TrimIsInnerPart(s);
    var t := Trim(s);
    if t != [] {
      assert TrimStart(t) == t;
      assert TrimEnd(t) == t;
    }
  }

  /** Lower-casing twice is lower-casing once. */
  lemma ToLowerIdempotent(s: string)
    ensures ToLower(ToLower(s)) == ToLower(s)
  {
  }

  /** Lower-casing neither creates nor removes white space. */
  lemma ToLowerKeepsSpaces(s: string)
    ensures forall i :: 0 <= i < |s| ==> (IsSpace(ToLower(s)[i]) <==> IsSpace(s[i]))
  {
  }

  /** A key is already normalised: normalising it again changes nothing. */
  lemma KeyIdempotent(name: string)
    ensures Key(Key(name)) == Key(name)
  {
    var t := Trim(name);
    var k := ToLower(t);
    TrimIsInnerPart(name);
    ToLowerKeepsSpaces(t);
    if k != [] {
      assert !IsSpace(k[0]) && !IsSpace(k[|k| - 1]);
      assert TrimStart(k) == k;
      assert TrimEnd(k) == k;
    }
    ToLowerIdempotent(t);
  }

  /** The part of `t` before its first separator (all of `t` when it has none). */
  function Before(t: string, isSep: char -> bool): string {
    if t == [] || isSep(t[0]) then [] else [t[0]] + Before(t[1..], isSep)
  }

  /** The part of `t` after its first separator (empty when it has none). */
  function After(t: string, isSep: char -> bool): string {
    if t == [] then [] else if isSep(t[0]) then t[1..] else After(t[1..], isSep)
  }

  /** Splitting at the first separator gives back what stood before it and what stood after it. */
  lemma {:induction false} SplitAtFirst(a: string, c: char, b: string, isSep: char -> bool)
    requires forall i :: 0 <= i < |a| ==> !isSep(a[i])
    requires isSep(c)
    ensures Before(a + [c] + b, isSep) == a
    ensures After(a + [c] + b, isSep) == b
  {
    if a != [] {
      assert (a + [c] + b)[1..] == a[1..] + [c] + b;
      SplitAtFirst(a[1..], c, b, isSep);
    } else {
      assert a + [c] + b == [c] + b;
    }
  }

  /** A string without separators lies wholly before the first one. */
  lemma {:induction false} BeforeWithoutSeparator(b: string, isSep: char -> bool)
    requires forall i :: 0 <= i < |b| ==> !isSep(b[i])
    ensures Before(b, isSep) == b
  {
    if b != [] {
      BeforeWithoutSeparator(b[1..], isSep);
    }
  }

  /** The part before the first separator holds only characters of the input. */
  lemma {:induction false} BeforeChars(t: string, isSep: char -> bool)
    ensures forall c :: c in Before(t, isSep) ==> c in t
  {
    if t != [] && !isSep(t[0]) {
      BeforeChars(t[1..], isSep);
    }
  }

  /** The part after the first separator holds only characters of the input. */
  lemma {:induction false} AfterChars(t: string, isSep: char -> bool)
    ensures forall c :: c in After(t, isSep) ==> c in t
  {
    if t != [] && !isSep(t[0]) {
      AfterChars(t[1..], isSep);
    }
  }
}
