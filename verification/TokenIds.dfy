/** From the items of an encoding to token ids, and from ids back to text. */
module TokenIds {
  import opened Wrappers
  import opened TokenTrie
  import opened PairMerging
  import opened ScoreMerge
  import opened TextScan

  function HexDigit(n: nat): char
    requires n < 16
  {
    "0123456789ABCDEF"[n]
  }

  /** The name under which a vocabulary lists a single byte. */
  function ByteName(c: char): string {
    "<0x" + [HexDigit(c as int / 16 % 16), HexDigit(c as int % 16)] + ">"
  }

  /** The ids that an item stands for; an unknown byte without an entry of its own is dropped. */
  function Ids(dict: Dict, stringToToken: map<string, int>, item: Item): seq<int> {
    match item
    case Piece(text) => if text in dict then [dict[text].id] else []
    case Barrier(text, fixId) =>
      if fixId != NONE then [fixId]
      else if text != "" && ByteName(text[0]) in stringToToken then [stringToToken[ByteName(text[0])]]
      else []
  }

  function AllIds(dict: Dict, stringToToken: map<string, int>, items: seq<Item>): seq<int> {
    if items == [] then []
        else AllIds(dict, stringToToken, items[..|items| - 1]) + Ids(dict, stringToToken, items[|items| - 1])
  }

  lemma AllIdsStep(dict: Dict, stringToToken: map<string, int>, items: seq<Item>, n: nat)
    requires n < |items|
    ensures AllIds(dict, stringToToken, items[..n + 1])
        == AllIds(dict, stringToToken, items[..n]) + Ids(dict, stringToToken, items[n])
  {
    assert items[..n + 1][..n] == items[..n];
  }

  // --- reading ids back ---

  predicate NamesByte(s: string) {
    |s| == 6 && s[..3] == "<0x" && s[5] == '>'
  }

  /** Any character that is not a digit is read as if it were a letter from A on. */
  function DigitValue(c: char): int {
    if '0' <= c <= '9' then c as int - '0' as int else c as int - 'A' as int + 10
  }

  /** The byte with this name; a byte keeps the last eight bits of the number read. */
  function NamedByte(s: string): (c: char)
    requires NamesByte(s)
    ensures c as int < 256
  {
    ((DigitValue(s[3]) * 16 + DigitValue(s[4])) % 256) as char
  }

  /** The text that a token is shown as. */
  function Shown(s: string): string {
    if NamesByte(s) then [NamedByte(s)] else if s == "<n>" then "\n" else if s == "<|tab|>" then "\t" else s
  }

  /** Tokens that are not shown as their own string. */
  predicate IsMark(s: string) {
    NamesByte(s) || s == "<n>" || s == "<|tab|>"
  }

  /** The string of an id; that of an unknown id is empty. */
  function StringOf(tokenToString: map<int, string>, id: int): string {
    if id in tokenToString then tokenToString[id] else ""
  }

  function ShownAll(tokenToString: map<int, string>, ids: seq<int>): string {
    if ids == [] then ""
    else ShownAll(tokenToString, ids[..|ids| - 1]) + Shown(StringOf(tokenToString, ids[|ids| - 1]))
  }

  /** Reading the name of a byte gives the byte. */
  lemma NameRead(c: char)
    requires c as int < 256
    ensures NamesByte(ByteName(c)) && NamedByte(ByteName(c)) == c
  {
    var high, low := c as int / 16, c as int % 16;
    assert high % 16 == high;
    DigitRead(high);
    DigitRead(low);
    hide HexDigit, DigitValue;
    NameParts(HexDigit(high), HexDigit(low));
    assert high * 16 + low == c as int;
  }

  lemma NameParts(high: char, low: char)
    ensures var name := "<0x" + [high, low] + ">"; NamesByte(name) && name[3] == high && name[4] == low
  {
  }

  lemma DigitRead(n: nat)
    requires n < 16
    ensures DigitValue(HexDigit(n)) == n
  {
    assert "0123456789ABCDEF"[n] == if n < 10 then ('0' as int + n) as char else ('A' as int + n - 10) as char;
  }

  lemma NameShown(c: char)
    requires c as int < 256
    ensures Shown(ByteName(c)) == [c]
  {
    NameRead(c);
  }

  /** A mark is longer than what it is shown as. */
  lemma MarkShrinks(s: string)
    ensures |Shown(s)| <= |s| && (|Shown(s)| == |s| <==> !IsMark(s)) && (!IsMark(s) ==> Shown(s) == s)
  {
  }

  /** The dictionaries agree: the id of every token leads back to its string. */
  ghost predicate Consistent(dict: Dict, special: Dict, stringToToken: map<string, int>,
      tokenToString: map<int, string>)
  {
    && (forall t :: t in dict ==> Leads(tokenToString, dict[t].id, t))
    && (forall t :: t in special ==> special[t].id != NONE && Leads(tokenToString, special[t].id, t))
    && (forall t :: t in stringToToken ==> Leads(tokenToString, stringToToken[t], t))
  }

  predicate Leads(tokenToString: map<int, string>, id: int, t: string) {
    id in tokenToString && tokenToString[id] == t
  }

  /** A token with a new id leaves the dictionaries in agreement. */
  lemma StillConsistent(dict: Dict, special: Dict, stringToToken: map<string, int>, tokenToString: map<int, string>,
      s: string, id: int, score: real)
    requires Consistent(dict, special, stringToToken, tokenToString) && id !in tokenToString
    ensures Consistent(dict[s := Token(id, score)], special, stringToToken[s := id], tokenToString[id := s])
  {
  }

  /** The item comes back as it is: a token that is not a mark, or an unknown byte that has a name. */
  predicate Restored(stringToToken: map<string, int>, item: Item) {
    if item.Piece? || item.fixId != NONE then !IsMark(item.text)
    else item.text != "" && ByteName(item.text[0]) in stringToToken
  }

  ghost predicate OfBytes(s: string) {
    forall i :: 0 <= i < |s| ==> s[i] as int < 256
  }

  lemma {:induction false} ShownConcat(tokenToString: map<int, string>, a: seq<int>, b: seq<int>)
    ensures ShownAll(tokenToString, a + b) == ShownAll(tokenToString, a) + ShownAll(tokenToString, b)
  {
    if b == [] {
      assert a + b == a;
    } else {
      assert (a + b)[..|a + b| - 1] == a + b[..|b| - 1];
      ShownConcat(tokenToString, a, b[..|b| - 1]);
    }
  }

  lemma ShownOne(tokenToString: map<int, string>, id: int)
    ensures ShownAll(tokenToString, [id]) == Shown(StringOf(tokenToString, id))
  {
    assert [id][..0] == [];
  }

  /** One item: what it is shown as is no longer than it, and as long only if it comes back. */
  lemma ItemShown(dict: Dict, special: Dict, stringToToken: map<string, int>, tokenToString: map<int, string>,
      item: Item)
    requires Consistent(dict, special, stringToToken, tokenToString) && FromScan(dict, special, item)
    requires OfBytes(item.text)
    ensures var shown := ShownAll(tokenToString, Ids(dict, stringToToken, item));
      && |shown| <= |item.text| && (|shown| == |item.text| <==> Restored(stringToToken, item))
      && (Restored(stringToToken, item) ==> shown == item.text)
  {
    hide Shown, IsMark, ByteName;
    var ids := Ids(dict, stringToToken, item);
    if ids != [] {
      ShownOne(tokenToString, ids[0]);
      if item.Barrier? && item.fixId == NONE {
        NameShown(item.text[0]);
        assert item.text == [item.text[0]];
      } else {
        MarkShrinks(item.text);
      }
    }
  }

  lemma SpellLast(items: seq<Item>)
    requires items != []
    ensures Spell(items) == Spell(items[..|items| - 1]) + items[|items| - 1].text
  {
    var init, last := items[..|items| - 1], items[|items| - 1];
    assert items == init + [last];
    SpellConcat(init, [last]);
    SpellCons(last, []);
    assert [last] + [] == [last];
  }

  lemma {:induction false} ItemsShown(dict: Dict, special: Dict, stringToToken: map<string, int>,
      tokenToString: map<int, string>, items: seq<Item>)
    requires Consistent(dict, special, stringToToken, tokenToString) && OfBytes(Spell(items))
    requires forall item :: item in items ==> FromScan(dict, special, item)
    ensures var shown := ShownAll(tokenToString, AllIds(dict, stringToToken, items));
      && |shown| <= |Spell(items)|
      && (shown == Spell(items) <==> forall item :: item in items ==> Restored(stringToToken, item))
      && (|shown| == |Spell(items)| ==> shown == Spell(items))
  {
    if items != [] {
      var init, last := items[..|items| - 1], items[|items| - 1];
      SpellLast(items);
      BytesParts(Spell(init), last.text);
      assert items == init + [last];
      ItemsShown(dict, special, stringToToken, tokenToString, init);
      ItemShown(dict, special, stringToToken, tokenToString, last);
      ShownConcat(tokenToString, AllIds(dict, stringToToken, init), Ids(dict, stringToToken, last));
      AllIdsLast(dict, stringToToken, items);
      hide Spell, ShownAll, AllIds, Restored, Ids, FromScan, Consistent;
      BothWhole(ShownAll(tokenToString, AllIds(dict, stringToToken, init)), Spell(init),
                ShownAll(tokenToString, Ids(dict, stringToToken, last)), last.text);
    }
  }

  lemma AllIdsLast(dict: Dict, stringToToken: map<string, int>, items: seq<Item>)
    requires items != []
    ensures AllIds(dict, stringToToken, items)
         == AllIds(dict, stringToToken, items[..|items| - 1]) + Ids(dict, stringToToken, items[|items| - 1])
  {
  }

  /** Two strings that are not longer than two others, put one behind the other, are as long only if both are. */
  lemma BothWhole(a: string, s: string, b: string, t: string)
    requires |a| <= |s| && |b| <= |t| && (|a| == |s| ==> a == s) && (|b| == |t| ==> b == t)
    ensures |a + b| <= |s + t| && (|a + b| == |s + t| <==> a == s && b == t) && (a + b == s + t <==> a == s && b == t)
  {
  }

  lemma BytesParts(a: string, b: string)
    requires OfBytes(a + b)
    ensures OfBytes(a) && OfBytes(b)
  {
    forall i | 0 <= i < |a| ensures a[i] as int < 256 {
      assert (a + b)[i] == a[i];
    }
    forall i | 0 <= i < |b| ensures b[i] as int < 256 {
      assert (a + b)[|a| + i] == b[i];
    }
  }

  /** The items that a text is encoded as. */
  ghost function Encoded(dict: Dict, special: Dict, s: string): seq<Item> {
    Merged(CostsOf(dict), Scan(dict, special, s, 0))
  }

  lemma EncodedItems(dict: Dict, special: Dict, s: string)
    ensures Spell(Encoded(dict, special, s)) == s
    ensures forall item :: item in Encoded(dict, special, s) ==> FromScan(dict, special, item)
  {
    var start := Scan(dict, special, s, 0);
    ScanSpells(dict, special, s, 0);
    MergedMeaning(CostsOf(dict), start);
    assert s[0..] == s;
  }

  /** Encoding a text and reading the ids back never gives a longer text, and gives the text itself if and only if its
      encoding uses no mark as a token and every unknown byte in it has a name. */
  lemma TextReturns(dict: Dict, special: Dict, stringToToken: map<string, int>, tokenToString: map<int, string>,
      s: string)
    requires Consistent(dict, special, stringToToken, tokenToString) && OfBytes(s)
    ensures var items := Encoded(dict, special, s);
      var shown := ShownAll(tokenToString, AllIds(dict, stringToToken, items));
      && |shown| <= |s|
      && (shown == s <==> forall item :: item in items ==> Restored(stringToToken, item))
  {
    EncodedItems(dict, special, s);
    ItemsShown(dict, special, stringToToken, tokenToString, Encoded(dict, special, s));
  }

  /** Vocabularies that lose nothing: no token is a mark, and every byte is a token or has a name. */
  lemma AllTextsReturn(dict: Dict, special: Dict, stringToToken: map<string, int>, tokenToString: map<int, string>,
      s: string)
    requires Consistent(dict, special, stringToToken, tokenToString) && OfBytes(s)
    requires forall t :: t in dict || t in special ==> !IsMark(t)
    requires forall c: char :: c as int < 256 ==> [c] in dict || ByteName(c) in stringToToken
    ensures ShownAll(tokenToString, AllIds(dict, stringToToken, Encoded(dict, special, s))) == s
  {
    TextReturns(dict, special, stringToToken, tokenToString, s);
    EncodedItems(dict, special, s);
    var items := Encoded(dict, special, s);
    hide Encoded, IsMark, ByteName, Spell;
    forall item | item in items ensures Restored(stringToToken, item) {
      if item.Barrier? && item.fixId == NONE {
        ItemInText(items, item);
        assert item.text == [item.text[0]];
      }
    }
  }

  lemma {:induction false} ItemInText(items: seq<Item>, item: Item)
    requires item in items && OfBytes(Spell(items))
    ensures OfBytes(item.text)
  {
    var init, last := items[..|items| - 1], items[|items| - 1];
    SpellLast(items);
    BytesParts(Spell(init), last.text);
    if item != last {
      ItemInText(init, item);
    }
  }

  /** A text that is itself a mark among the tokens, with no shorter token in front, does not come back. */
  lemma TypedMark(dict: Dict, stringToToken: map<string, int>, tokenToString: map<int, string>, s: string)
    requires Consistent(dict, map[], stringToToken, tokenToString) && OfBytes(s)
    requires s in dict && IsMark(s) && forall n :: 0 < n < |s| ==> s[..n] !in dict
    ensures Encoded(dict, map[], s) == [Piece(s)]
    ensures ShownAll(tokenToString, AllIds(dict, stringToToken, [Piece(s)])) == Shown(s) != s
  {
    OneScanned(dict, s);
    hide Scan, IsMark, Shown;
    MergedStuck(CostsOf(dict), [Piece(s)]);
    OneToken(dict, stringToToken, s);
    ShownOne(tokenToString, dict[s].id);
    MarkShrinks(s);
  }

  lemma OneScanned(dict: Dict, s: string)
    requires s != "" && s in dict && forall n :: 0 < n < |s| ==> s[..n] !in dict
    ensures Scan(dict, map[], s, 0) == [Piece(s)]
  {
    assert s[0..|s|] == s;
    assert forall n :: 0 < n < |s| ==> s[0..n] == s[..n];
    assert ShortestEnd(dict, s, 0, 1) == Some(|s|);
    assert Scan(dict, map[], s, |s|) == [];
  }

  lemma OneToken(dict: Dict, stringToToken: map<string, int>, t: string)
    requires t in dict
    ensures AllIds(dict, stringToToken, [Piece(t)]) == [dict[t].id]
  {
    AllIdsStep(dict, stringToToken, [Piece(t)], 0);
    assert [Piece(t)][..1] == [Piece(t)] && [Piece(t)][..0] == [];
  }
}
