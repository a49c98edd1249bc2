/**
 * The parts of java.lang.String that the user service relies on:
 * trim(), toLowerCase() (ASCII letters only) and contains().
 */
module JavaText {

  /** Every character is at or below U+0020, the set that String.trim() strips. */
  ghost predicate Blank(s: string)
  {
    forall i :: 0 <= i < |s| ==> s[i] <= ' '
  }

  /** The first index at or after `st` whose character is above U+0020, or |s| if none. */
  function SkipLeading(s: string, st: nat): (k: nat)
    requires st <= |s|
    decreases |s| - st
    ensures st <= k <= |s|
    ensures forall i :: st <= i < k ==> s[i] <= ' '
    ensures k < |s| ==> s[k] > ' '
  {
    if st < |s| && s[st] <= ' ' then SkipLeading(s, st + 1) else st
  }

  /** The end of s[st..len] once its trailing characters at or below U+0020 are dropped. */
  function SkipTrailing(s: string, st: nat, len: nat): (k: nat)
    requires st <= len <= |s|
    ensures st <= k <= len
    ensures forall i :: k <= i < len ==> s[i] <= ' '
    ensures st < k ==> s[k - 1] > ' '
  {
    if st < len && s[len - 1] <= ' ' then SkipTrailing(s, st, len - 1) else len
  }

  /**
   * String.trim(): the slice s[st..len] left after moving st past the leading
   * and len before the trailing characters at or below U+0020. It is empty
   * exactly when every character of `s` is at or below U+0020.
   */
  function Trim(s: string): (r: string)
    ensures r == [] <==> Blank(s)
  {
    var st := SkipLeading(s, 0);
    var len := SkipTrailing(s, st, |s|);
    assert st < len ==> s[st] > ' ';
    s[st..len]
  }

  /** `r` is s[st..st + |r|], and everything of `s` outside it is at or below U+0020. */
  ghost predicate CutAt(s: string, r: string, st: int)
  {
    && 0 <= st <= |s| - |r| && r == s[st..st + |r|]
    && (forall i :: 0 <= i < st ==> s[i] <= ' ')
    && (forall i :: st + |r| <= i < |s| ==> s[i] <= ' ')
  }

  /**
   * What trim leaves is a slice of `s` that neither starts nor ends with a
   * character at or below U+0020, and everything it cut off is such
   * characters.
   */
  lemma TrimIsSlice(s: string)
    ensures exists st :: CutAt(s, Trim(s), st)
    ensures Trim(s) != [] ==> Trim(s)[0] > ' ' && Trim(s)[|Trim(s)| - 1] > ' '
  {
    var st := SkipLeading(s, 0);
    var len := SkipTrailing(s, st, |s|);
    var r := Trim(s);
    assert r == s[st..len] && |r| == len - st;
    assert CutAt(s, r, st);
  }

  /** Character.toLowerCase restricted to ASCII: 'A'..'Z' become 'a'..'z'. */
  function LowerChar(c: char): char
  {
    if 'A' <= c <= 'Z' then (c as int - 'A' as int + 'a' as int) as char else c
  }

  /** String.toLowerCase over ASCII letters. */
  function Lower(s: string): (r: string)
    ensures |r| == |s|
  {
    if s == [] then [] else [LowerChar(s[0])] + Lower(s[1..])
  }

  /**
   * Lowering leaves no upper-case ASCII letter, keeps every other character
   * and moves each upper-case letter to its lower-case partner.
   */
  lemma {:induction false} LowerChars(s: string)
    ensures forall i :: 0 <= i < |s| ==> !('A' <= Lower(s)[i] <= 'Z')
    ensures forall i :: 0 <= i < |s| && !('A' <= s[i] <= 'Z') ==> Lower(s)[i] == s[i]
    ensures forall i :: 0 <= i < |s| && 'A' <= s[i] <= 'Z' ==> Lower(s)[i] as int == s[i] as int + 32
  {
    if s != [] {
      LowerChars(s[1..]);
      assert forall i :: 1 <= i < |s| ==> Lower(s)[i] == Lower(s[1..])[i - 1];
    }
  }

  /** `needle` occurs in `hay` starting at offset `i`. */
  ghost predicate OccursAt(hay: string, needle: string, i: int)
  {
    0 <= i && i + |needle| <= |hay| && hay[i..i + |needle|] == needle
  }

  /** String.contains: tries each offset of `hay` in turn. */
  function Contains(hay: string, needle: string): bool
  {
    needle <= hay || (hay != [] && Contains(hay[1..], needle))
  }

  /** An occurrence in `hay` past its first character is an occurrence in its tail, one place earlier. */
  lemma OccursInTail(hay: string, needle: string, i: int)
    requires hay != [] && 1 <= i
    ensures OccursAt(hay, needle, i) <==> OccursAt(hay[1..], needle, i - 1)
  {
    if i + |needle| <= |hay| {
      var here := hay[i..i + |needle|];
      var there := hay[1..][i - 1..i - 1 + |needle|];
      assert forall k :: 0 <= k < |here| ==> here[k] == there[k];
      assert here == there;
    }
  }

  /** Contains finds `needle` exactly when it occurs at some offset. */
  lemma {:induction false} ContainsIff(hay: string, needle: string)
    ensures Contains(hay, needle) <==> exists i :: OccursAt(hay, needle, i)
  {
    if needle <= hay {
      assert OccursAt(hay, needle, 0);
    } else if hay == [] {
      assert forall i :: !OccursAt(hay, needle, i);
    } else {
      ContainsIff(hay[1..], needle);
      if Contains(hay[1..], needle) {
        var j :| OccursAt(hay[1..], needle, j);
        OccursInTail(hay, needle, j + 1);
      } else {
        forall i | OccursAt(hay, needle, i)
          ensures false
        {
          if i >= 1 {
            OccursInTail(hay, needle, i);
          }
        }
      }
    }
  }
}
