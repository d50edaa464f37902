/**
 * The few string operations of Python's `str` that the prompts rely on:
 * `split`, `lower`, `strip` (only whether it leaves anything), `isdigit`
 * and `int` on a digit string.
 */
module Text {

  predicate IsAsciiDigit(c: char)
  {
    '0' <= c <= '9'
  }

  predicate AllDigits(s: string)
  {
    forall i :: 0 <= i < |s| ==> IsAsciiDigit(s[i])
  }

  /** `s.isdigit()`, on ASCII digits: non-empty and digits only. */
  predicate IsDigits(s: string)
  {
    |s| > 0 && AllDigits(s)
  }

  /** `int(s)` for a string of ASCII digits: its decimal value (leading zeros allowed). */
  function Decimal(s: string): nat
    requires AllDigits(s)
  {
    if s == [] then 0
    else
      assert IsAsciiDigit(s[|s| - 1]);
      10 * Decimal(s[..|s| - 1]) + (s[|s| - 1] as int - '0' as int)
  }

  /** Leading zeros do not change the value: `int("007") == int("7")`. */
  lemma {:induction false} DecimalLeadingZero(s: string)
    requires AllDigits(s)
    ensures AllDigits("0" + s) && Decimal("0" + s) == Decimal(s)
    decreases |s|
  {
    var t := "0" + s;
    if s != [] {
      assert t[..|t| - 1] == "0" + s[..|s| - 1];
      DecimalLeadingZero(s[..|s| - 1]);
    } else {
      assert t[..|t| - 1] == [];
    }
  }

  /** The characters Python's `str.isspace` (and so `str.strip`) treats as whitespace. */
  predicate IsSpace(c: char)
  {
    ('\U{9}' <= c <= '\U{D}') || ('\U{1C}' <= c <= ' ') || c == '\U{85}' || c == '\U{A0}'
    || c == '\U{1680}' || ('\U{2000}' <= c <= '\U{200A}') || c == '\U{2028}' || c == '\U{2029}'
    || c == '\U{202F}' || c == '\U{205F}' || c == '\U{3000}'
  }

  /** `not s.strip()`: the string is empty or whitespace only. */
  predicate IsBlank(s: string)
  {
    forall i :: 0 <= i < |s| ==> IsSpace(s[i])
  }

  /** `s.lower()` on ASCII letters; other characters are kept. */
  function LowerAscii(s: string): (r: string)
    ensures |r| == |s|
    ensures forall i :: 0 <= i < |s| ==> r[i] == if 'A' <= s[i] <= 'Z' then s[i] - 'A' + 'a' else s[i]
  {
    if s == [] then []
    else [if 'A' <= s[0] <= 'Z' then s[0] - 'A' + 'a' else s[0]] + LowerAscii(s[1..])
  }

  /** Exactly "y" and "Y" lower-case to "y". */
  lemma LowerIsY(s: string)
    ensures LowerAscii(s) == "y" <==> s == "y" || s == "Y"
  {
    if LowerAscii(s) == "y" {
      assert |s| == 1 && LowerAscii(s)[0] == 'y';
    }
  }

  /** Exactly "n" and "N" lower-case to "n". */
  lemma LowerIsN(s: string)
    ensures LowerAscii(s) == "n" <==> s == "n" || s == "N"
  {
    if LowerAscii(s) == "n" {
      assert |s| == 1 && LowerAscii(s)[0] == 'n';
    }
  }

  /** `s.split(sep)`: the pieces between separators, including empty ones; at
      least one piece, none containing the separator, each made of characters
      of `s`. */
  function Split(s: string, sep: char): (fields: seq<string>)
    ensures |fields| >= 1
    ensures forall k :: 0 <= k < |fields| ==> sep !in fields[k]
    ensures forall k, i :: 0 <= k < |fields| && 0 <= i < |fields[k]| ==> fields[k][i] in s
    decreases |s|
  {
    if s == [] then [[]]
    else
      var rest := Split(s[1..], sep);
      if s[0] == sep then [[]] + rest
      else [[s[0]] + rest[0]] + rest[1..]
  }

  /** `sep.join(fields)`. */
  function Join(fields: seq<string>, sep: char): string
    requires |fields| >= 1
  {
    if |fields| == 1 then fields[0] else fields[0] + [sep] + Join(fields[1..], sep)
  }

  /** Joining the pieces of a split with the same separator gives back the string. */
  lemma {:induction false} SplitJoin(s: string, sep: char)
    ensures Join(Split(s, sep), sep) == s
    decreases |s|
  {
    if s != [] {
      var rest := Split(s[1..], sep);
      SplitJoin(s[1..], sep);
      if s[0] == sep {
        assert ([[]] + rest)[1..] == rest;
      } else {
        var fields := [[s[0]] + rest[0]] + rest[1..];
        if |rest| > 1 {
          assert fields[1..] == rest[1..];
          assert Join(rest, sep) == rest[0] + [sep] + Join(rest[1..], sep);
        }
      }
    }
  }

  /** `list(filter(None, fields))`: the non-empty strings, in order. */
  function NonEmpty(fields: seq<string>): (r: seq<string>)
    ensures |r| <= |fields|
    ensures forall k :: 0 <= k < |r| ==> r[k] != [] && r[k] in fields
    ensures forall f :: f in fields && f != [] ==> f in r
  {
    if fields == [] then []
    else
      var init, last := fields[..|fields| - 1], fields[|fields| - 1];
      assert fields == init + [last];
      NonEmpty(init) + (if last == [] then [] else [last])
  }

  /** The positions, in increasing order, of the non-empty strings. */
  function NonEmptyPositions(fields: seq<string>): (r: seq<nat>)
    ensures forall k :: 0 <= k < |r| ==> r[k] < |fields| && fields[r[k]] != []
    ensures forall k, l :: 0 <= k < l < |r| ==> r[k] < r[l]
    ensures forall i :: 0 <= i < |fields| && fields[i] != [] ==> i in r
  {
    if fields == [] then []
    else
      var n := |fields| - 1;
      NonEmptyPositions(fields[..n]) + (if fields[n] == [] then [] else [n])
  }

  /** The filter keeps the non-empty strings at their positions, in increasing
      order: none is reordered, and a repeated one is kept each time. */
  lemma {:induction false} NonEmptyIsSubsequence(fields: seq<string>)
    ensures |NonEmpty(fields)| == |NonEmptyPositions(fields)|
    ensures forall k :: 0 <= k < |NonEmpty(fields)| ==>
      NonEmpty(fields)[k] == fields[NonEmptyPositions(fields)[k]]
  {
    if fields != [] {
      var n := |fields| - 1;
      var init := fields[..n];
      NonEmptyIsSubsequence(init);
      var r, ps := NonEmpty(fields), NonEmptyPositions(fields);
      var tail := if fields[n] == [] then [] else [fields[n]];
      assert r == NonEmpty(init) + tail;
      assert ps == NonEmptyPositions(init) + (if fields[n] == [] then [] else [n]);
      forall k | 0 <= k < |r|
        ensures r[k] == fields[ps[k]]
      {
        if k < |NonEmpty(init)| {
          assert r[k] == init[NonEmptyPositions(init)[k]];
        }
      }
    }
  }

  /** A string of separators only splits into empty pieces. */
  lemma {:induction false} SplitOfSeparators(s: string, sep: char)
    requires forall i :: 0 <= i < |s| ==> s[i] == sep
    ensures forall k :: 0 <= k < |Split(s, sep)| ==> Split(s, sep)[k] == []
    decreases |s|
  {
    if s != [] {
      SplitOfSeparators(s[1..], sep);
    }
  }

  /** Conversely, a string all of whose pieces are empty holds separators only. */
  lemma {:induction false} EmptyPiecesOnlySeparators(s: string, sep: char)
    requires forall k :: 0 <= k < |Split(s, sep)| ==> Split(s, sep)[k] == []
    ensures forall i :: 0 <= i < |s| ==> s[i] == sep
    decreases |s|
  {
    if s != [] {
      var rest := Split(s[1..], sep);
      if s[0] == sep {
        assert forall k :: 0 <= k < |rest| ==> rest[k] == Split(s, sep)[k + 1];
        EmptyPiecesOnlySeparators(s[1..], sep);
        assert forall i :: 1 <= i < |s| ==> s[i] == s[1..][i - 1];
      } else {
        assert Split(s, sep)[0] == [s[0]] + rest[0];
      }
    }
  }

  /** Filtering a list of empty strings leaves nothing. */
  lemma {:induction false} NonEmptyOfEmpties(fields: seq<string>)
    requires forall k :: 0 <= k < |fields| ==> fields[k] == []
    ensures NonEmpty(fields) == []
  {
    if fields != [] {
      NonEmptyOfEmpties(fields[..|fields| - 1]);
    }
  }
}
