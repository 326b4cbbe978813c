/** The text form of hstore: how Hstore.Encode and NullHstore.Encode write it, and the
    language that ParseHstore reads. Strings are sequences of code points. */
module HstoreText {

  datatype NullString = NullString(text: string, valid: bool)
  {
    /** What survives the text form: an invalid NullString has no text. */
    function Normal(): NullString {
      if valid then this else NullString("", false)
    }
  }

  // ---- writing ----

  /** strings.Replace(s, c, by, -1) for a pattern of one character. */
  function Replace(s: string, c: char, sub: string): string {
    if s == "" then "" else (if s[0] == c then sub else [s[0]]) + Replace(s[1..], c, sub)
  }

  /** The two replacements that Encode makes, backslashes first. */
  function Quote(s: string): string {
    Replace(Replace(s, '\\', "\\\\"), '"', "\\\"")
  }

  function PairText(k: string, v: NullString): string {
    if v.valid then "\"" + Quote(k) + "\"=>\"" + Quote(v.text) + "\"" else "\"" + Quote(k) + "\"=>NULL"
  }

  /** The pairs of h in the given order, separated by ", ". */
  function Text(order: seq<string>, h: map<string, NullString>): string
    requires forall k :: k in order ==> k in h
  {
    if order == [] then ""
    else PairText(order[0], h[order[0]]) + (if |order| == 1 then "" else ", " + Text(order[1..], h))
  }

  /** order lists every key of h once. */
  ghost predicate Enumerates<V>(order: seq<string>, h: map<string, V>) {
    && (forall k :: k in order <==> k in h)
    && (forall i, j :: 0 <= i < j < |order| ==> order[i] != order[j])
  }

  function AllValid(m: map<string, string>): map<string, NullString> {
    map k | k in m :: NullString(m[k], true)
  }

  /** Appending one more pair, with the separator written after the pair before it. */
  lemma {:induction false} TextAppend(order: seq<string>, k: string, h: map<string, NullString>)
    requires k in h && forall x :: x in order ==> x in h
    ensures Text(order + [k], h) == (if order == [] then "" else Text(order, h) + ", ") + PairText(k, h[k])
  {
    hide PairText;
    var more := order + [k];
    if order == [] {
      assert more == [k];
    } else {
      assert more[1..] == order[1..] + [k] && more[0] == order[0];
      TextAppend(order[1..], k, h);
      var p := PairText(order[0], h[order[0]]);
      assert Text(more, h) == p + ", " + Text(more[1..], h);
    }
  }

  /** NullHstore.Encode of a non-NULL value. Go visits the keys in any order. */
  method EncodeNull(h: map<string, NullString>) returns (text: string)
    ensures exists order :: Enumerates(order, h) && text == Text(order, h)
  {
    hide PairText;
    text := "";
    ghost var order: seq<string> := [];
    var left := h.Keys;
    var i := 0;
    while left != {}
      invariant left <= h.Keys && i + |left| == |h.Keys|
      invariant forall k :: k in order <==> k in h && k !in left
      invariant forall a, b :: 0 <= a < b < |order| ==> order[a] != order[b]
      invariant (i == 0) == (order == [])
      invariant text == Text(order, h) + (if 0 < i < |h.Keys| then ", " else "")
      decreases |left|
    {
      var k :| k in left;
      left := left - {k};
      i := i + 1;
      TextAppend(order, k, h);
      order := order + [k];
      text := text + PairText(k, h[k]);
      if i < |h.Keys| {
        text := text + ", ";
      }
    }
    assert Enumerates(order, h);
  }

  /** Hstore.Encode: the same text, every value quoted. */
  method Encode(m: map<string, string>) returns (text: string)
    ensures exists order :: Enumerates(order, m) && text == Text(order, AllValid(m))
  {
    text := EncodeNull(AllValid(m));
    ghost var order :| Enumerates(order, AllValid(m)) && text == Text(order, AllValid(m));
    assert Enumerates(order, m);
  }

  // ---- the language ----

  /** unicode.IsSpace. */
  predicate IsSpace(c: char) {
    || c == '\t' || c == '\n' || c == '\U{0B}' || c == '\U{0C}' || c == '\r' || c == ' '
    || c == '\U{85}' || c == '\U{A0}' || c == '\U{1680}' || '\U{2000}' <= c <= '\U{200A}'
    || c == '\U{2028}' || c == '\U{2029}' || c == '\U{202F}' || c == '\U{205F}' || c == '\U{3000}'
  }

  /** A character inside quotes, plain or after a backslash. */
  datatype Unit = Plain(c: char) | Escape(c: char)
  {
    predicate Legal() {
      Plain? ==> c != '"' && c != '\\'
    }

    function Spelling(): string {
      if Plain? then [c] else ['\\', c]
    }

    /** A backslash is dropped only before a quote or a backslash. */
    function Meaning(): string {
      if Plain? || c == '"' || c == '\\' then [c] else ['\\', c]
    }
  }

  function Spell(units: seq<Unit>): string {
    if units == [] then "" else units[0].Spelling() + Spell(units[1..])
  }

  function Mean(units: seq<Unit>): (s: string)
    ensures s == "" <==> units == []
  {
    if units == [] then "" else units[0].Meaning() + Mean(units[1..])
  }

  ghost predicate AllLegal(units: seq<Unit>) {
    forall u :: u in units ==> u.Legal()
  }

  datatype Value = Null | Quoted(units: seq<Unit>)
  {
    function Spelling(): string {
      if Null? then "NULL" else "\"" + Spell(units) + "\""
    }

    function Meaning(): NullString {
      if Null? then NullString("", false) else NullString(Mean(units), true)
    }
  }

  /** A pair of the text, with the two characters before it: "," is followed by a space
      and by one character that the parser takes for the opening quote unread. */
  datatype Pair = Pair(space: char, open: char, key: seq<Unit>, val: Value)
  {
    ghost predicate Legal() {
      IsSpace(space) && AllLegal(key) && key != [] && (val.Quoted? ==> AllLegal(val.units))
    }

    /** Everything after the opening quote. */
    function Spelling(): string {
      Spell(key) + "\"=>" + val.Spelling()
    }
  }

  ghost predicate LegalPairs(pairs: seq<Pair>) {
    forall p :: p in pairs ==> p.Legal()
  }

  /** The text of the pairs after the first. */
  function Tail(pairs: seq<Pair>): string {
    if pairs == [] then "" else [',', pairs[0].space, pairs[0].open] + pairs[0].Spelling() + Tail(pairs[1..])
  }

  function Document(pairs: seq<Pair>): string {
    if pairs == [] then "" else "\"" + pairs[0].Spelling() + Tail(pairs[1..])
  }

  function KeysOf(pairs: seq<Pair>): (ks: seq<string>)
    ensures |ks| == |pairs|
  {
    if pairs == [] then [] else [Mean(pairs[0].key)] + KeysOf(pairs[1..])
  }

  function ValuesOf(pairs: seq<Pair>): (vs: seq<NullString>)
    ensures |vs| == |pairs|
  {
    if pairs == [] then [] else [pairs[0].val.Meaning()] + ValuesOf(pairs[1..])
  }

  // ---- Quote spells what it is given ----

  function UnitsFor(s: string): (units: seq<Unit>)
    ensures units == [] <==> s == ""
  {
    if s == "" then []
    else [if s[0] == '"' || s[0] == '\\' then Escape(s[0]) else Plain(s[0])] + UnitsFor(s[1..])
  }

  lemma {:induction false} ReplaceConcat(a: string, b: string, c: char, sub: string)
    ensures Replace(a + b, c, sub) == Replace(a, c, sub) + Replace(b, c, sub)
  {
    if a == "" {
      assert a + b == b;
    } else {
      assert (a + b)[1..] == a[1..] + b;
      ReplaceConcat(a[1..], b, c, sub);
    }
  }

  lemma QuoteStep(s: string)
    requires s != ""
    ensures Quote(s) == (if s[0] == '"' || s[0] == '\\' then ['\\', s[0]] else [s[0]]) + Quote(s[1..])
  {
    var head := if s[0] == '\\' then "\\\\" else [s[0]];
    ReplaceConcat(head, Replace(s[1..], '\\', "\\\\"), '"', "\\\"");
    if s[0] == '\\' {
      assert head[1..] == "\\";
      assert Replace("\\", '"', "\\\"") == "\\";
    }
  }

  /** The two passes of replacement escape each character on its own, and lose nothing. */
  lemma {:induction false} QuoteSpells(s: string)
    ensures Spell(UnitsFor(s)) == Quote(s)
    ensures Mean(UnitsFor(s)) == s
    ensures AllLegal(UnitsFor(s))
  {
    if s != "" {
      QuoteStep(s);
      QuoteSpells(s[1..]);
      var units := UnitsFor(s);
      assert units[1..] == UnitsFor(s[1..]);
      assert s == [s[0]] + s[1..];
    }
  }
}
