/**
 The converters between Go method names and snake-case path segments, on ASCII text.
 */
module Names {

  predicate Upper(c: char) { 'A' <= c <= 'Z' }
  predicate Lower(c: char) { 'a' <= c <= 'z' }
  predicate LowerOrDigit(c: char) { Lower(c) || '0' <= c <= '9' }

  function ToLower(c: char): char {
    if Upper(c) then (c as int + 32) as char else c
  }

  function ToUpper(c: char): char {
    if Lower(c) then (c as int - 32) as char else c
  }

  function AllLower(s: string): string {
    if s == "" then "" else AllLower(s[..|s| - 1]) + [ToLower(s[|s| - 1])]
  }

  // ---------------------------------------------------------------- the byte loops, as recursion

  /** What `SnakeString` makes of the rest `s` of its input; `start` holds at the very first byte, `j`
      once a byte other than the underscore has been seen. */
  function SnakeRest(s: string, start: bool, j: bool): string {
    if s == "" then ""
    else
      (if !start && Upper(s[0]) && j then "_" else "") + [ToLower(s[0])] + SnakeRest(s[1..], false, j || s[0] != '_')
  }

  function Snake(s: string): string {
    SnakeRest(s, true, false)
  }

  /** What `CamelString` makes of the rest of its input, with its flags `j` (the next lower-case letter
      starts a word) and `k` (a capital has been written). */
  function CamelRest(s: string, j: bool, k: bool): string {
    if s == "" then ""
    else
      var k1 := k || Upper(s[0]);
      var raise := Lower(s[0]) && (j || !k1);
      var d := if raise then ToUpper(s[0]) else s[0];
      var k2 := k1 || raise;
      if k2 && d == '_' && |s| > 1 && Lower(s[1]) then CamelRest(s[1..], true, k2)
      else [d] + CamelRest(s[1..], j && !raise, k2)
  }

  function Camel(s: string): string {
    CamelRest(s, false, false)
  }

  /** The bytes `SnakeString` appends at index `i`, in lower case. */
  function SnakePiece(s: string, i: nat, j: bool): string
    requires i < |s|
  {
    if i > 0 && Upper(s[i]) && j then ['_', ToLower(s[i])] else [ToLower(s[i])]
  }

  lemma SnakeStep(s: string, i: nat, j: bool, done: string)
    requires i < |s|
    ensures done + SnakeRest(s[i..], i == 0, j)
            == (done + SnakePiece(s, i, j)) + SnakeRest(s[i + 1..], false, j || s[i] != '_')
  {
    assert s[i..][1..] == s[i + 1..];
  }

  lemma LowerAppend(s: string, c: char)
    ensures AllLower(s + [c]) == AllLower(s) + [ToLower(c)]
  {
    assert (s + [c])[..|s|] == s;
  }

  method SnakeString(s: string) returns (r: string)
    ensures r == Snake(s)
  {
    var data := "";
    var j := false;
    assert s[0..] == s;
    assert SnakeRest(s[|s|..], false, false) == SnakeRest(s[|s|..], false, true) == "";
    hide SnakeRest;
    for i := 0 to |s|
      invariant AllLower(data) + SnakeRest(s[i..], i == 0, j) == SnakeRest(s, true, false)
    {
      var d := s[i];
      ghost var before := AllLower(data);
      SnakeStep(s, i, j, before);
      if i > 0 && Upper(d) && j {
        LowerAppend(data, '_');
        data := data + ['_'];
      }
      LowerAppend(data, d);
      data := data + [d];
      assert AllLower(data) == before + SnakePiece(s, i, j);
      if d != '_' {
        j := true;
      }
    }
    r := AllLower(data);
  }

  /** One byte of `CamelString`: what it appends, and the flags afterwards. */
  function CamelPiece(s: string, i: nat, j: bool, k: bool): (string, bool, bool)
    requires i < |s|
  {
    var k1 := k || Upper(s[i]);
    var raise := Lower(s[i]) && (j || !k1);
    var d := if raise then ToUpper(s[i]) else s[i];
    var k2 := k1 || raise;
    if k2 && d == '_' && i + 1 < |s| && Lower(s[i + 1]) then ("", true, k2) else ([d], j && !raise, k2)
  }

  lemma CamelStep(s: string, i: nat, j: bool, k: bool, done: string)
    requires i < |s|
    ensures var p := CamelPiece(s, i, j, k);
            done + CamelRest(s[i..], j, k) == (done + p.0) + CamelRest(s[i + 1..], p.1, p.2)
  {
    assert s[i..][1..] == s[i + 1..];
    if i + 1 < |s| {
      assert s[i..][1] == s[i + 1];
    }
  }

  method CamelString(s: string) returns (r: string)
    ensures r == Camel(s)
  {
    r := "";
    var j, k := false, false;
    var i := 0;
    assert s[0..] == s;
    assert forall j, k :: CamelRest("", j, k) == "";
    hide CamelRest;
    while i < |s|
      invariant 0 <= i <= |s| && r + CamelRest(s[i..], j, k) == CamelRest(s, false, false)
    {
      CamelStep(s, i, j, k, r);
      ghost var p, r0 := CamelPiece(s, i, j, k), r;
      var d := s[i];
      if !k && Upper(d) {
        k := true;
      }
      if Lower(d) && (j || !k) {
        d := ToUpper(d);
        j := false;
        k := true;
      }
      if k && d == '_' && i + 1 < |s| && Lower(s[i + 1]) {
        j := true;
      } else {
        r := r + [d];
      }
      assert r == r0 + p.0 && (j, k) == (p.1, p.2);
      i := i + 1;
    }
  }

  // ---------------------------------------------------------------- words

  ghost predicate Tail(w: string) {
    forall k :: 0 <= k < |w| ==> LowerOrDigit(w[k])
  }

  /** A lower-case letter, then lower-case letters or digits. */
  datatype Word = Word(first: char, rest: string) {
    ghost predicate Valid() { Lower(first) && Tail(rest) }
    function Small(): string { [first] + rest }
    function Big(): string { [ToUpper(first)] + rest }
  }

  ghost predicate Valid(ws: seq<Word>) {
    forall k :: 0 <= k < |ws| ==> ws[k].Valid()
  }

  /** `_xx_yy_zz`: every word led by an underscore. */
  function Led(ws: seq<Word>): string {
    if ws == [] then "" else "_" + (ws[0].Small() + Led(ws[1..]))
  }

  /** `xx_yy_zz` */
  function Joined(ws: seq<Word>): string {
    if ws == [] then "" else ws[0].Small() + Led(ws[1..])
  }

  /** `XxYyZz` */
  function Capitalised(ws: seq<Word>): string {
    if ws == [] then "" else ws[0].Big() + Capitalised(ws[1..])
  }

  lemma {:induction false} SnakeTail(w: string, more: string)
    requires Tail(w)
    ensures SnakeRest(w + more, false, true) == w + SnakeRest(more, false, true)
  {
    if w == "" {
      assert w + more == more;
    } else {
      assert (w + more)[1..] == w[1..] + more;
      SnakeTail(w[1..], more);
      assert w == [w[0]] + w[1..];
    }
  }

  lemma SnakeWord(w: Word, more: string, start: bool)
    requires w.Valid()
    ensures var rest := w.Small() + SnakeRest(more, false, true);
            SnakeRest(w.Big() + more, start, !start) == if start then rest else "_" + rest
  {
    assert (w.Big() + more)[1..] == w.rest + more;
    SnakeTail(w.rest, more);
  }

  lemma {:induction false} SnakeWords(ws: seq<Word>)
    requires Valid(ws)
    ensures SnakeRest(Capitalised(ws), false, true) == Led(ws)
  {
    if ws != [] {
      SnakeWord(ws[0], Capitalised(ws[1..]), false);
      SnakeWords(ws[1..]);
    }
  }

  /** `SnakeString` turns capitalised words into the same words joined by underscores. */
  lemma SnakeOfCapitalised(ws: seq<Word>)
    requires Valid(ws)
    ensures Snake(Capitalised(ws)) == Joined(ws)
  {
    if ws != [] {
      hide SnakeRest;
      SnakeWord(ws[0], Capitalised(ws[1..]), true);
      SnakeWords(ws[1..]);
    }
  }

  lemma {:induction false} CamelTail(w: string, more: string)
    requires Tail(w)
    ensures CamelRest(w + more, false, true) == w + CamelRest(more, false, true)
  {
    if w == "" {
      assert w + more == more;
    } else {
      assert (w + more)[1..] == w[1..] + more;
      CamelTail(w[1..], more);
      assert w == [w[0]] + w[1..];
    }
  }

  /** A word is capitalised when it comes first (`k` false) or after an underscore (`j` true). */
  lemma CamelWord(w: Word, more: string, j: bool)
    requires w.Valid()
    ensures CamelRest(w.Small() + more, j, j) == w.Big() + CamelRest(more, false, true)
  {
    assert (w.Small() + more)[1..] == w.rest + more;
    CamelTail(w.rest, more);
  }

  lemma CamelUnderscore(t: string)
    requires t != "" && Lower(t[0])
    ensures CamelRest("_" + t, false, true) == CamelRest(t, true, true)
  {
    assert ("_" + t)[1..] == t && ("_" + t)[1] == t[0];
  }

  lemma {:induction false} CamelWords(ws: seq<Word>)
    requires Valid(ws)
    ensures CamelRest(Led(ws), false, true) == Capitalised(ws)
  {
    if ws != [] {
      hide CamelRest;
      var small := ws[0].Small() + Led(ws[1..]);
      assert Led(ws) == "_" + small && small[0] == ws[0].first;
      CamelUnderscore(small);
      CamelWord(ws[0], Led(ws[1..]), true);
      CamelWords(ws[1..]);
    }
  }

  /** `CamelString` turns words joined by underscores into the same words capitalised. */
  lemma CamelOfJoined(ws: seq<Word>)
    requires Valid(ws)
    ensures Camel(Joined(ws)) == Capitalised(ws)
  {
    if ws != [] {
      CamelWord(ws[0], Led(ws[1..]), false);
      CamelWords(ws[1..]);
    }
  }

  /** On such names the two conversions undo each other. */
  lemma MutualInverses(ws: seq<Word>)
    requires Valid(ws)
    ensures Camel(Snake(Capitalised(ws))) == Capitalised(ws)
    ensures Snake(Camel(Joined(ws))) == Joined(ws)
  {
    SnakeOfCapitalised(ws);
    CamelOfJoined(ws);
  }

  ghost predicate NoUpper(s: string) {
    forall k :: 0 <= k < |s| ==> !Upper(s[k])
  }

  lemma {:induction false} SnakeHasNoUpper(s: string, start: bool, j: bool)
    ensures NoUpper(SnakeRest(s, start, j))
  {
    if s != "" {
      SnakeHasNoUpper(s[1..], false, j || s[0] != '_');
    }
  }

  lemma {:induction false} SnakeKeepsLower(s: string, start: bool, j: bool)
    requires NoUpper(s)
    ensures SnakeRest(s, start, j) == s
  {
    if s != "" {
      SnakeKeepsLower(s[1..], false, j || s[0] != '_');
      assert s == [s[0]] + s[1..];
    }
  }

  /** Converting a second time changes nothing, whatever the name. */
  lemma SnakeIsIdempotent(s: string)
    ensures Snake(Snake(s)) == Snake(s)
  {
    SnakeHasNoUpper(s, true, false);
    SnakeKeepsLower(Snake(s), true, false);
  }

  // ---------------------------------------------------------------- byte by byte, for every name

  /** What becomes of byte `i` in the snake form: in lower case, led by an underscore if it is a capital that
      something other than underscores comes before. */
  ghost function SnakeByte(s: string, i: nat): string
    requires i < |s|
  {
    (if i > 0 && 'A' <= s[i] <= 'Z' && exists k :: 0 <= k < i && s[k] != '_' then "_" else "")
    + [if 'A' <= s[i] <= 'Z' then (s[i] as int + 32) as char else s[i]]
  }

  ghost predicate LetterBefore(s: string, i: nat)
    requires i <= |s|
  {
    exists k :: 0 <= k < i && ('A' <= s[k] <= 'Z' || 'a' <= s[k] <= 'z')
  }

  /** What becomes of byte `i` in the camel form: an underscore between a letter, somewhere before, and a small
      letter, just behind, is dropped; a small letter is raised if it is the first letter or follows an
      underscore; everything else stays. */
  ghost function CamelByte(s: string, i: nat): string
    requires i < |s|
  {
    if s[i] == '_' && LetterBefore(s, i) && i + 1 < |s| && 'a' <= s[i + 1] <= 'z' then ""
    else if 'a' <= s[i] <= 'z' && (!LetterBefore(s, i) || s[i - 1] == '_') then [(s[i] as int - 32) as char]
    else [s[i]]
  }

  ghost function SnakeBytes(s: string, i: nat): string
    requires i <= |s|
    decreases |s| - i
  {
    if i == |s| then "" else SnakeByte(s, i) + SnakeBytes(s, i + 1)
  }

  ghost function CamelBytes(s: string, i: nat): string
    requires i <= |s|
    decreases |s| - i
  {
    if i == |s| then "" else CamelByte(s, i) + CamelBytes(s, i + 1)
  }

  lemma {:induction false} SnakeFrom(s: string, i: nat, j: bool)
    requires i <= |s| && (j <==> exists k :: 0 <= k < i && s[k] != '_')
    ensures SnakeRest(s[i..], i == 0, j) == SnakeBytes(s, i)
    decreases |s| - i
  {
    if i < |s| {
      assert s[i..][1..] == s[i + 1..];
      SnakeFrom(s, i + 1, j || s[i] != '_');
    }
  }

  /** `SnakeString` on every ASCII name. */
  lemma SnakeByByte(s: string)
    ensures Snake(s) == SnakeBytes(s, 0)
  {
    assert s[0..] == s;
    SnakeFrom(s, 0, false);
  }

  /** The flag `j` says that the byte before was a dropped underscore, `k` that there was a letter. */
  lemma {:induction false} CamelFrom(s: string, i: nat, j: bool, k: bool)
    requires i <= |s| && (k <==> LetterBefore(s, i))
    requires j <==> i > 0 && i < |s| && s[i - 1] == '_' && LetterBefore(s, i) && Lower(s[i])
    ensures CamelRest(s[i..], j, k) == CamelBytes(s, i)
    decreases |s| - i
  {
    if i < |s| {
      var p := CamelPiece(s, i, j, k);
      CamelStep(s, i, j, k, "");
      LetterStep(s, i);
      CamelFrom(s, i + 1, p.1, p.2);
      assert "" + CamelRest(s[i..], j, k) == CamelRest(s[i..], j, k);
    }
  }

  lemma LetterStep(s: string, i: nat)
    requires i < |s|
    ensures LetterBefore(s, i + 1) <==> LetterBefore(s, i) || Upper(s[i]) || Lower(s[i])
  {
  }

  /** `CamelString` on every ASCII name. */
  lemma CamelByByte(s: string)
    ensures Camel(s) == CamelBytes(s, 0)
  {
    assert s[0..] == s;
    CamelFrom(s, 0, false, false);
  }
}
