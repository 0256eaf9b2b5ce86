/** The Kernighan-Pike matcher of user/src/grep.rs against a declarative language.

    A C string is modelled by the bytes before its NUL; the NUL itself is "the end of the sequence". */
module Grep {

  type Byte = b: nat | 0 < b < 256 witness 1
  type CString = seq<Byte>

  const STAR: Byte := 42    // '*'
  const DOT: Byte := 46     // '.'
  const DOLLAR: Byte := 36  // '$'
  const CARET: Byte := 94   // '^'

  /** One unit of a pattern. */
  datatype Item =
    | One(c: Byte)    // c, or any byte when c is '.'
    | Star(c: Byte)   // zero or more of the above
    | End             // a final '$'

  /** The pattern a string denotes. `c*` binds before the final `$`, and a `*` or `$` elsewhere is an ordinary byte. */
  function Items(re: CString): seq<Item> {
    if re == [] then []
    else if |re| >= 2 && re[1] == '*' as int then [Star(re[0])] + Items(re[2..])
    else if |re| == 1 && re[0] == '$' as int then [End]
    else [One(re[0])] + Items(re[1..])
  }

  predicate Accepts(c: Byte, x: Byte) {
    c == '.' as int || c == x
  }

  predicate AllAccepted(c: Byte, w: CString) {
    forall i | 0 <= i < |w| :: Accepts(c, w[i])
  }

  /** The words of a single item; `End` is the empty word, and `Split` says where it may stand. */
  predicate Denotes(item: Item, w: CString) {
    match item
    case One(c) => |w| == 1 && Accepts(c, w[0])
    case Star(c) => AllAccepted(c, w)
    case End => w == []
  }

  function Concat(parts: seq<CString>): CString {
    if parts == [] then [] else parts[0] + Concat(parts[1..])
  }

  /** `text` begins with a word of the pattern, cut item by item into `parts`; nothing follows an `End`. */
  ghost predicate Split(items: seq<Item>, parts: seq<CString>, text: CString) {
    && |parts| == |items|
    && (forall i | 0 <= i < |items| :: Denotes(items[i], parts[i]))
    && Concat(parts) <= text
    && (End in items ==> Concat(parts) == text)
  }

  ghost predicate InLanguage(items: seq<Item>, text: CString) {
    exists parts :: Split(items, parts, text)
  }

  // ---- How a split begins ----

  lemma EmptyInLanguage(text: CString)
    ensures InLanguage([], text)
  {
    assert Split([], [], text);
  }

  lemma EndInLanguage(text: CString)
    ensures InLanguage([End], text) <==> text == []
  {
    if text == [] {
      var parts: seq<CString> := [[]];
      assert Concat(parts) == [] by { assert parts[1..] == []; }
      assert Split([End], parts, text);
    }
    forall parts | Split([End], parts, text) ensures text == [] {
      assert Denotes([End][0], parts[0]);
      assert parts[1..] == [] && Concat(parts) == [];
      assert End in [End];
    }
  }

  lemma SplitTail(item: Item, rest: seq<Item>, parts: seq<CString>, text: CString)
    requires Split([item] + rest, parts, text)
    requires item != End
    ensures |parts| >= 1 && |parts[0]| <= |text| && parts[0] == text[..|parts[0]|]
    ensures Denotes(item, parts[0])
    ensures InLanguage(rest, text[|parts[0]|..])
  {
    var items := [item] + rest;
    assert items[1..] == rest;
    assert Denotes(items[0], parts[0]);
    assert forall i | 0 <= i < |rest| :: rest[i] == items[i + 1];
    assert Concat(parts) == parts[0] + Concat(parts[1..]);
    assert parts[0] <= text;
    assert End in rest ==> End in items;
    assert Split(rest, parts[1..], text[|parts[0]|..]);
  }

  lemma SplitCons(item: Item, rest: seq<Item>, k: nat, text: CString)
    requires k <= |text| && Denotes(item, text[..k])
    requires item != End
    requires InLanguage(rest, text[k..])
    ensures InLanguage([item] + rest, text)
  {
    var parts :| Split(rest, parts, text[k..]);
    var all := [text[..k]] + parts;
    assert all[1..] == parts;
    assert text == text[..k] + text[k..];
    assert Concat(all) == text[..k] + Concat(parts);
    assert Split([item] + rest, all, text);
  }

  /** A leading `c` consumes exactly one accepted byte. */
  lemma OneInLanguage(c: Byte, rest: seq<Item>, text: CString)
    ensures InLanguage([One(c)] + rest, text)
       <==> (text != [] && Accepts(c, text[0]) && InLanguage(rest, text[1..]))
  {
    if InLanguage([One(c)] + rest, text) {
      var parts :| Split([One(c)] + rest, parts, text);
      SplitTail(One(c), rest, parts, text);
    }
    if text != [] && Accepts(c, text[0]) && InLanguage(rest, text[1..]) {
      SplitCons(One(c), rest, 1, text);
    }
  }

  /** A leading `c*` consumes some accepted run of bytes. */
  lemma StarInLanguage(c: Byte, rest: seq<Item>, text: CString)
    ensures InLanguage([Star(c)] + rest, text)
       <==> exists k | 0 <= k <= |text| :: AllAccepted(c, text[..k]) && InLanguage(rest, text[k..])
  {
    if InLanguage([Star(c)] + rest, text) {
      var parts :| Split([Star(c)] + rest, parts, text);
      SplitTail(Star(c), rest, parts, text);
      var k := |parts[0]|;
      assert AllAccepted(c, text[..k]) && InLanguage(rest, text[k..]);
    }
    if k :| 0 <= k <= |text| && AllAccepted(c, text[..k]) && InLanguage(rest, text[k..]) {
      SplitCons(Star(c), rest, k, text);
    }
  }

  // ---- The matcher ----

  /** matchhere: does `text` begin with a word of `re`? */
  method MatchHere(re: CString, text: CString) returns (r: bool)
    ensures r <==> InLanguage(Items(re), text)
    decreases |re|, 0
  {
    if re == [] {
      EmptyInLanguage(text);
      return true;
    }
    if |re| >= 2 && re[1] == STAR {
      r := MatchStar(re[0], re[2..], text);
      return;
    }
    if re[0] == DOLLAR && |re| == 1 {
      EndInLanguage(text);
      return text == [];
    }
    OneInLanguage(re[0], Items(re[1..]), text);
    if text != [] && (re[0] == DOT || re[0] == text[0]) {
      r := MatchHere(re[1..], text[1..]);
      return;
    }
    return false;
  }

  /** matchstar: shortest run first, and complete. */
  method MatchStar(c: Byte, re: CString, text: CString) returns (r: bool)
    ensures r <==> InLanguage([Star(c)] + Items(re), text)
    decreases |re|, 1
  {
    StarInLanguage(c, Items(re), text);
    var t := 0;
    while true
      invariant 0 <= t <= |text|
      invariant AllAccepted(c, text[..t])
      invariant forall k | 0 <= k < t :: !InLanguage(Items(re), text[k..])
      decreases |text| - t
    {
      var here := MatchHere(re, text[t..]);
      if here {
        return true;
      }
      if t == |text| || (text[t] != c && c != DOT) {
        break;
      }
      t := t + 1;
    }
    assert t < |text| ==> forall k | t < k <= |text| :: !Accepts(c, text[..k][t]);
    return false;
  }

  /** match_pattern: anchored by a leading '^', otherwise tried at every suffix, the empty one included. */
  method MatchPattern(re: CString, text: CString) returns (r: bool)
    ensures re != [] && re[0] == '^' as int ==> (r <==> InLanguage(Items(re[1..]), text))
    ensures re == [] || re[0] != '^' as int ==>
              (r <==> exists k | 0 <= k <= |text| :: InLanguage(Items(re), text[k..]))
  {
    if re != [] && re[0] == CARET {
      r := MatchHere(re[1..], text);
      return;
    }
    var t := 0;
    while true
      invariant 0 <= t <= |text|
      invariant forall k | 0 <= k < t :: !InLanguage(Items(re), text[k..])
      decreases |text| - t
    {
      var here := MatchHere(re, text[t..]);
      if here {
        return true;
      }
      if t == |text| {
        break;
      }
      t := t + 1;
    }
    return false;
  }
}
