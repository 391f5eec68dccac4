/**
 * JavaScript strings as the relay manipulates them: sequences of UTF-16 code
 * units, with the three string operations the transformer uses —
 * `split(' ')`, `join(' ')` and `slice(start)`.
 */
module JsText {

  /** One UTF-16 code unit, the element of a JavaScript string. */
  type CodeUnit = u: int | 0 <= u < 0x1_0000

  type JsString = seq<CodeUnit>

  /** The single-space separator `' '`. */
  const SPACE: CodeUnit := 0x20

  /** A JavaScript string literal written with ASCII characters only. */
  function Ascii(s: string): JsString
    requires forall i | 0 <= i < |s| :: s[i] as int < 0x80
  {
    seq(|s|, i requires 0 <= i < |s| => s[i] as int)
  }

  /**
   * `s.slice(start)` for a non-negative `start`: the code units from index
   * `start` on, or the empty string when `start` lies past the end.
   */
  function SliceFrom(s: JsString, start: nat): (r: JsString)
    ensures start <= |s| ==> |r| == |s| - start
    ensures start >= |s| ==> r == []
    ensures forall i :: 0 <= i < |r| ==> r[i] == s[start + i]
  {
    if start <= |s| then s[start..] else []
  }

  /**
   * `s.split(' ')`: the pieces between single spaces, in order. Empty pieces
   * are kept (two adjacent spaces give an empty piece), and the empty string
   * splits into one empty piece.
   */
  function Split(s: JsString): (parts: seq<JsString>)
    ensures |parts| >= 1
    ensures forall k :: 0 <= k < |parts| ==> SPACE !in parts[k]
  {
    if s == [] then [[]]
    else
      var rest := Split(s[1..]);
      if s[0] == SPACE then [[]] + rest
      else [[s[0]] + rest[0]] + rest[1..]
  }

  /**
   * `parts.join(' ')`: the pieces with one space between neighbours; `[]`
   * joins to "". The first piece starts the result, and a space follows it
   * when there are more pieces.
   */
  function Join(parts: seq<JsString>): (s: JsString)
    ensures parts == [] ==> s == []
    ensures parts != [] ==> parts[0] <= s
    ensures |parts| > 1 ==> |s| > |parts[0]| && s[|parts[0]|] == SPACE
  {
    if |parts| == 0 then []
    else if |parts| == 1 then parts[0]
    else parts[0] + [SPACE] + Join(parts[1..])
  }

  /** Joining the pieces of a split gives back the original string. */
  lemma {:induction false} JoinSplit(s: JsString)
    ensures Join(Split(s)) == s
  {
    if s != [] {
      var rest := Split(s[1..]);
      JoinSplit(s[1..]);
      if s[0] == SPACE {
        assert ([[]] + rest)[1..] == rest;
      } else if |rest| > 1 {
        var parts := [[s[0]] + rest[0]] + rest[1..];
        assert parts[1..] == rest[1..];
        assert Join(rest) == rest[0] + [SPACE] + Join(rest[1..]);
      }
    }
  }

  /** Splitting a space-free prefix glued to the rest extends the rest's first piece. */
  lemma {:induction false} SplitPrefix(a: JsString, b: JsString)
    requires SPACE !in a
    ensures Split(a + b) == [a + Split(b)[0]] + Split(b)[1..]
  {
    var sb := Split(b);
    if a == [] {
      assert a + b == b && a + sb[0] == sb[0];
      assert sb == [sb[0]] + sb[1..];
    } else {
      var tail := a[1..] + b;
      SplitPrefix(a[1..], b);
      var rest := Split(tail);
      assert rest == [a[1..] + sb[0]] + sb[1..];
      assert (a + b)[0] == a[0] && a[0] != SPACE;
      assert (a + b)[1..] == tail;
      assert Split(a + b) == [[a[0]] + rest[0]] + rest[1..];
      assert rest[0] == a[1..] + sb[0] && rest[1..] == sb[1..];
      assert [a[0]] + (a[1..] + sb[0]) == a + sb[0];
    }
  }

  /**
   * Splitting the join of a non-empty list of space-free pieces gives the list back:
   * `split(' ')` and `join(' ')` are inverse on such lists.
   */
  lemma {:induction false} SplitJoin(parts: seq<JsString>)
    requires |parts| >= 1
    requires forall k :: 0 <= k < |parts| ==> SPACE !in parts[k]
    ensures Split(Join(parts)) == parts
  {
    if |parts| == 1 {
      SplitPrefix(parts[0], []);
      assert parts[0] + [] == parts[0];
    } else {
      SplitJoin(parts[1..]);
      var tail := Join(parts[1..]);
      assert Split([SPACE] + tail) == [[]] + Split(tail);
      SplitPrefix(parts[0], [SPACE] + tail);
      assert parts[0] + [SPACE] + tail == parts[0] + ([SPACE] + tail);
      assert Split([SPACE] + tail)[1..] == parts[1..];
      assert parts[0] + [] == parts[0];
      assert parts == [parts[0]] + parts[1..];
    }
  }
}
