/**
 * The matcher of grep: literals, '.', postfix '*', '^' at the front and '$' at the end.
 * Texts and patterns are strings up to their NUL.
 */
module Grep {
  datatype Item = Lit(c: char) | Star(c: char) | EndMark

  // ------------------------------------------------------------------ what a pattern means

  /** A pattern without its leading '^' as a list of items; '$' is special only at the very end. */
  function Items(re: string): (r: seq<Item>)
    ensures forall i | 0 <= i < |r| && r[i] == EndMark :: i == |r| - 1
  {
    if re == "" then []
    else if |re| > 1 && re[1] == '*' then [Star(re[0])] + Items(re[2..])
    else if re == "$" then [EndMark]
    else [Lit(re[0])] + Items(re[1..])
  }

  predicate Allows(c: char, x: char) {
    c == '.' || c == x
  }

  /** The strings an item stands for. */
  predicate Denotes(item: Item, s: string) {
    match item
    case Lit(c) => |s| == 1 && Allows(c, s[0])
    case Star(c) => forall i | 0 <= i < |s| :: Allows(c, s[i])
    case EndMark => s == ""
  }

  function Concat(segs: seq<string>): string {
    if segs == [] then "" else segs[0] + Concat(segs[1..])
  }

  /** The text splits into one piece for each item, in order, and a rest that an end mark requires to be empty. */
  ghost predicate Splits(items: seq<Item>, text: string, segs: seq<string>, rest: string) {
    && |segs| == |items| && text == Concat(segs) + rest
    && (forall i | 0 <= i < |items| :: Denotes(items[i], segs[i]))
    && (EndMark in items ==> rest == "")
  }

  /** Some prefix of the text is in the language of the items. */
  ghost predicate Here(items: seq<Item>, text: string) {
    exists segs, rest :: Splits(items, text, segs, rest)
  }

  ghost predicate Anywhere(re: string, text: string) {
    if re != "" && re[0] == '^' then Here(Items(re[1..]), text)
    else exists k | 0 <= k <= |text| :: Here(Items(re), text[k..])
  }

  // ------------------------------------------------------------------ one item at a time

  lemma ConsSplit(item: Item, items: seq<Item>, s: string, text: string, segs: seq<string>, rest: string)
    requires item != EndMark && Denotes(item, s) && Splits(items, text, segs, rest)
    ensures Splits([item] + items, s + text, [s] + segs, rest)
  {
    assert ([s] + segs)[1..] == segs;
    assert s + text == s + Concat(segs) + rest;
    forall i | 0 <= i < |items| + 1
      ensures Denotes(([item] + items)[i], ([s] + segs)[i])
    {
      assert i > 0 ==> Denotes(items[i - 1], segs[i - 1]);
    }
  }

  lemma TailSplit(items: seq<Item>, text: string, segs: seq<string>, rest: string)
    requires Splits(items, text, segs, rest) && items != []
    ensures text == segs[0] + (Concat(segs[1..]) + rest) && Denotes(items[0], segs[0])
    ensures Splits(items[1..], Concat(segs[1..]) + rest, segs[1..], rest)
  {
    forall i | 0 <= i < |items| - 1
      ensures Denotes(items[1..][i], segs[1..][i])
    {
      assert Denotes(items[i + 1], segs[i + 1]);
    }
  }

  lemma NoneHere(text: string)
    ensures Here([], text)
  {
    assert Splits([], text, [], text);
  }

  lemma EndHere(text: string)
    ensures Here([EndMark], text) <==> text == ""
  {
    if text == "" {
      assert Splits([EndMark], text, [""], "");
    }
    if Here([EndMark], text) {
      var segs, rest :| Splits([EndMark], text, segs, rest);
      TailSplit([EndMark], text, segs, rest);
      assert segs[1..] == [];
    }
  }

  lemma LitHere(c: char, items: seq<Item>, text: string)
    ensures Here([Lit(c)] + items, text) <==> text != "" && Allows(c, text[0]) && Here(items, text[1..])
  {
    var all := [Lit(c)] + items;
    assert all[1..] == items;
    if text != "" && Allows(c, text[0]) && Here(items, text[1..]) {
      var segs, rest :| Splits(items, text[1..], segs, rest);
      ConsSplit(Lit(c), items, [text[0]], text[1..], segs, rest);
      assert [text[0]] + text[1..] == text;
    }
    if Here(all, text) {
      var segs, rest :| Splits(all, text, segs, rest);
      TailSplit(all, text, segs, rest);
      assert text[1..] == Concat(segs[1..]) + rest;
    }
  }

  lemma StarMore(c: char, items: seq<Item>, text: string)
    requires text != "" && Allows(c, text[0]) && Here([Star(c)] + items, text[1..])
    ensures Here([Star(c)] + items, text)
  {
    var all := [Star(c)] + items;
    assert all[1..] == items;
    var segs, rest :| Splits(all, text[1..], segs, rest);
    TailSplit(all, text[1..], segs, rest);
    var s, after := [text[0]] + segs[0], Concat(segs[1..]) + rest;
    ConsSplit(Star(c), items, s, after, segs[1..], rest);
    assert s + after == [text[0]] + (segs[0] + after) == text;
  }

  lemma StarLess(c: char, items: seq<Item>, text: string)
    requires Here([Star(c)] + items, text)
    ensures Here(items, text) || (text != "" && Allows(c, text[0]) && Here([Star(c)] + items, text[1..]))
  {
    var all := [Star(c)] + items;
    assert all[1..] == items;
    var segs, rest :| Splits(all, text, segs, rest);
    TailSplit(all, text, segs, rest);
    var after := Concat(segs[1..]) + rest;
    if segs[0] == "" {
      assert text == after;
    } else {
      ConsSplit(Star(c), items, segs[0][1..], after, segs[1..], rest);
      assert segs[0][1..] + after == text[1..];
    }
  }

  lemma StarHere(c: char, items: seq<Item>, text: string)
    ensures Here([Star(c)] + items, text) <==>
            Here(items, text) || (text != "" && Allows(c, text[0]) && Here([Star(c)] + items, text[1..]))
  {
    if Here(items, text) {
      var segs, rest :| Splits(items, text, segs, rest);
      ConsSplit(Star(c), items, "", text, segs, rest);
      assert "" + text == text;
    } else if Here([Star(c)] + items, text) {
      StarLess(c, items, text);
    } else if text != "" && Allows(c, text[0]) && Here([Star(c)] + items, text[1..]) {
      StarMore(c, items, text);
    }
  }

  // ------------------------------------------------------------------ the matcher

  /** matchhere: some prefix of the text matches the pattern. */
  method MatchHere(re: string, text: string) returns (b: bool)
    ensures b <==> Here(Items(re), text)
    decreases |re|, 0
  {
    if re == "" {
      NoneHere(text);
      return true;
    }
    if |re| > 1 && re[1] == '*' {
      b := MatchStar(re[0], re[2..], text);
      return;
    }
    if re == "$" {
      EndHere(text);
      return text == "";
    }
    LitHere(re[0], Items(re[1..]), text);
    if text != "" && (re[0] == '.' || re[0] == text[0]) {
      b := MatchHere(re[1..], text[1..]);
      return;
    }
    return false;
  }

  /** matchstar: a run of c, possibly empty, and then the pattern. */
  method MatchStar(c: char, re: string, text: string) returns (b: bool)
    ensures b <==> Here([Star(c)] + Items(re), text)
    decreases |re|, 1
  {
    var t := 0;
    assert text[0..] == text;
    while true
      invariant 0 <= t <= |text|
      invariant Here([Star(c)] + Items(re), text) <==> Here([Star(c)] + Items(re), text[t..])
      decreases |text| - t
    {
      StarHere(c, Items(re), text[t..]);
      b := MatchHere(re, text[t..]);
      if b {
        return true;
      }
      if t == |text| || !(text[t] == c || c == '.') {
        return false;
      }
      assert text[t..][1..] == text[t + 1..];
      t := t + 1;
    }
  }

  /** match: the pattern matches somewhere in the text, or at its start after '^'. */
  method Match(re: string, text: string) returns (b: bool)
    ensures b <==> Anywhere(re, text)
  {
    if re != "" && re[0] == '^' {
      b := MatchHere(re[1..], text);
      return;
    }
    var t := 0;
    while true
      invariant 0 <= t <= |text|
      invariant forall k | 0 <= k < t :: !Here(Items(re), text[k..])
      decreases |text| - t
    {
      b := MatchHere(re, text[t..]);
      if b {
        return true;
      }
      if t == |text| {
        return false;
      }
      t := t + 1;
    }
  }
}
