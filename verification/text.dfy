/** String helpers standing in for the JavaScript string methods the catalog
    uses: `toLowerCase`, `includes` and `replace(/\n/g, '<br>')`. */
module Text {

  /** ASCII case folding; Unicode and locale rules are not modelled. */
  function LowerChar(c: char): (r: char)
    ensures !('A' <= r <= 'Z')
    ensures 'A' <= c <= 'Z' ==> r != c && r as int == c as int + 32
    ensures !('A' <= c <= 'Z') ==> r == c
  {
    if 'A' <= c <= 'Z' then (c as int + 32) as char else c
  }

  /** `s.toLowerCase()`. */
  function Lower(s: string): (r: string)
    ensures |r| == |s|
    ensures forall i :: 0 <= i < |r| ==> r[i] == LowerChar(s[i])
  {
    seq(|s|, i requires 0 <= i < |s| => LowerChar(s[i]))
  }

  predicate StartsWith(s: string, prefix: string) {
    |prefix| <= |s| && s[..|prefix|] == prefix
  }

  /** `hay.includes(needle)`: some window of `hay` equals `needle`. */
  predicate Contains(hay: string, needle: string)
    decreases |hay|
  {
    StartsWith(hay, needle) || (hay != [] && Contains(hay[1..], needle))
  }

  ghost predicate OccursAt(hay: string, needle: string, i: int) {
    0 <= i && i + |needle| <= |hay| && hay[i..i + |needle|] == needle
  }

  /** The recursive search agrees with the positional definition of a substring. */
  lemma {:induction false} ContainsIff(hay: string, needle: string)
    ensures Contains(hay, needle) <==> exists i :: OccursAt(hay, needle, i)
    decreases |hay|
  {
    if StartsWith(hay, needle) {
      assert OccursAt(hay, needle, 0);
    } else if hay == [] {
      assert needle != [];
    } else {
      ContainsIff(hay[1..], needle);
      if Contains(hay[1..], needle) {
        var j :| OccursAt(hay[1..], needle, j);
        assert hay[1..][j..j + |needle|] == hay[j + 1..j + 1 + |needle|];
        assert OccursAt(hay, needle, j + 1);
      }
      if i :| OccursAt(hay, needle, i) {
        assert i != 0;
        assert hay[1..][i - 1..i - 1 + |needle|] == hay[i..i + |needle|];
        assert OccursAt(hay[1..], needle, i - 1);
      }
    }
  }

  /** The empty needle is found in every string. */
  lemma ContainsEmpty(hay: string)
    ensures Contains(hay, "")
  {
    assert StartsWith(hay, "");
  }

  /** Nothing but the empty needle is found in the empty string. */
  lemma ContainsInEmpty(needle: string)
    requires Contains("", needle)
    ensures needle == ""
  {
  }

  /** Every character of a needle that is found occurs in the haystack. */
  lemma {:induction false} ContainsChars(hay: string, needle: string, c: char)
    requires Contains(hay, needle) && c in needle
    ensures c in hay
    decreases |hay|
  {
    if StartsWith(hay, needle) {
      var k :| 0 <= k < |needle| && needle[k] == c;
      assert hay[k] == c;
    } else {
      ContainsChars(hay[1..], needle, c);
    }
  }

  function Count(s: string, c: char): (n: nat)
    ensures n <= |s|
    ensures n == 0 <==> c !in s
  {
    if s == [] then 0 else (if s[0] == c then 1 else 0) + Count(s[1..], c)
  }

  /** What one character of the description becomes in the modal's HTML. */
  function Piece(c: char): string {
    if c == '\n' then "<br>" else [c]
  }

  /** `s.replace(/\n/g, '<br>')`: each line feed becomes a `<br>` tag. */
  function BreakLines(s: string): (r: string)
    ensures '\n' !in r
    ensures |r| == |s| + 3 * Count(s, '\n')
  {
    if s == [] then "" else Piece(s[0]) + BreakLines(s[1..])
  }

  /** Replacement works character by character, so it distributes over concatenation. */
  lemma {:induction false} BreakLinesAppend(a: string, b: string)
    ensures BreakLines(a + b) == BreakLines(a) + BreakLines(b)
  {
    if a == [] {
      assert a + b == b;
    } else {
      var ab := a + b;
      assert ab[0] == a[0] && ab[1..] == a[1..] + b;
      BreakLinesAppend(a[1..], b);
      calc {
        BreakLines(ab);
        Piece(a[0]) + BreakLines(a[1..] + b);
        Piece(a[0]) + (BreakLines(a[1..]) + BreakLines(b));
        (Piece(a[0]) + BreakLines(a[1..])) + BreakLines(b);
      }
    }
  }

  /** A line feed on its own becomes one `<br>` tag. */
  lemma LineFeedBecomesBr()
    ensures BreakLines("\n") == "<br>"
  {
  }

  /** Text without line feeds is shown unchanged. */
  lemma {:induction false} BreakLinesKeepsPlainText(s: string)
    requires '\n' !in s
    ensures BreakLines(s) == s
  {
    if s != [] {
      BreakLinesKeepsPlainText(s[1..]);
    }
  }
}
