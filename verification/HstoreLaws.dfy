/** hstore text by example and by character: what the printer writes, what an escape means,
    and which malformed text gives which error. */
module HstoreLaws {
  import opened HstoreText
  import opened HstoreParser
  import opened HstoreRoundTrip

  // ---- writing ----

  /** Each character is written as itself, after a backslash if it is a quote or a backslash. */
  lemma QuoteCharacter(c: char, s: string)
    ensures Quote("") == ""
    ensures Quote([c] + s) == (if c == '"' then "\\\"" else if c == '\\' then "\\\\" else [c]) + Quote(s)
  {
    assert ([c] + s)[1..] == s;
    QuoteStep([c] + s);
  }

  lemma QuoteOne(c: char)
    ensures Quote([c]) == if c == '"' then "\\\"" else if c == '\\' then "\\\\" else [c]
  {
    QuoteCharacter(c, "");
    assert [c] + "" == [c];
  }

  /** Two pairs, a key with a quote and a value that is a backslash, then a NULL. */
  lemma TextExample()
    ensures Text(["\"", "b"], map["\"" := NullString("\\", true), "b" := NullString("x", false)])
         == "\"\\\"\"=>\"\\\\\", \"b\"=>NULL"
  {
    QuoteOne('"');
    QuoteOne('\\');
    QuoteOne('b');
    hide Quote;
    var h := map["\"" := NullString("\\", true), "b" := NullString("x", false)];
    assert PairText("\"", h["\""]) == "\"\\\"\"=>\"\\\\\"";
    assert PairText("b", h["b"]) == "\"b\"=>NULL";
    hide PairText;
    assert ["\"", "b"][1..] == ["b"];
    assert Text(["b"], h) == PairText("b", h["b"]) + "";
    assert Text(["\"", "b"], h) == PairText("\"", h["\""]) + (", " + Text(["b"], h));
    hide Text;
    JoinedExample();
  }

  lemma JoinedExample()
    ensures "\"\\\"\"=>\"\\\\\"" + (", " + ("\"b\"=>NULL" + "")) == "\"\\\"\"=>\"\\\\\", \"b\"=>NULL"
  {
  }

  // ---- reading ----

  /** An escaped quote or backslash means itself; any other escape means both characters. */
  lemma EscapeMeaning(c: char)
    ensures Escape('"').Meaning() == "\"" && Escape('\\').Meaning() == "\\" && Plain(c).Meaning() == [c]
    ensures c != '"' && c != '\\' ==> Escape(c).Meaning() == ['\\', c]
  {
  }

  lemma SpaceTable(c: char)
    ensures IsSpace(c) <==>
        c as int in {9, 10, 11, 12, 13, 32, 0x85, 0xa0, 0x1680, 0x2028, 0x2029, 0x202f, 0x205f, 0x3000}
        || 0x2000 <= c as int <= 0x200a
  {
  }

  lemma SpellOne(u: Unit)
    ensures Spell([u]) == u.Spelling() && Mean([u]) == u.Meaning()
  {
    assert [u][1..] == [];
  }

  lemma SpellTwo(u: Unit, w: Unit)
    ensures Spell([u, w]) == u.Spelling() + w.Spelling() && Mean([u, w]) == u.Meaning() + w.Meaning()
  {
    SpellOne(w);
    assert [u, w][1..] == [w];
  }

  /** A key with an escape that means nothing, a value of an escaped quote and an escaped
      backslash, and then, after a tab and a character that nobody looks at, a NULL. */
  lemma ParseExample()
    ensures Parse("\"a\\b\"=>\"\\\"\\\\\",\tzk\"=>NULL")
         == Ok(["a\\b", "k"], [NullString("\"\\", true), NullString("", false)])
  {
    var p := Pair(' ', '"', [Plain('a'), Escape('b')], Quoted([Escape('"'), Escape('\\')]));
    var q := Pair('\t', 'z', [Plain('k')], Null);
    SpellTwo(Plain('a'), Escape('b'));
    SpellTwo(Escape('"'), Escape('\\'));
    SpellOne(Plain('k'));
    hide Spell, Mean;
    assert p.Spelling() == "a\\b\"=>\"\\\"\\\\\"" && q.Spelling() == "k\"=>NULL";
    assert Mean(p.key) == "a\\b" && p.val.Meaning() == NullString("\"\\", true);
    assert Mean(q.key) == "k" && q.val.Meaning() == NullString("", false);
    assert p.Legal() && q.Legal();
    PairOfPairs(p, q);
    hide *;
    ParseDocument([p, q]);
    ExampleText();
  }

  lemma ExampleText()
    ensures "\"" + "a\\b\"=>\"\\\"\\\\\"" + ([',', '\t', 'z'] + "k\"=>NULL") == "\"a\\b\"=>\"\\\"\\\\\",\tzk\"=>NULL"
  {
  }

  lemma PairOfPairs(p: Pair, q: Pair)
    ensures p.Legal() && q.Legal() ==> LegalPairs([p, q])
    ensures Document([p, q]) == "\"" + p.Spelling() + ([',', q.space, q.open] + q.Spelling())
    ensures KeysOf([p, q]) == [Mean(p.key), Mean(q.key)] && ValuesOf([p, q]) == [p.val.Meaning(), q.val.Meaning()]
  {
    hide Pair.Spelling, Pair.Legal, Mean, Value.Meaning;
    assert [p, q][1..] == [q] && [q][1..] == [];
    assert Tail([q]) == [',', q.space, q.open] + q.Spelling();
    assert KeysOf([q]) == [Mean(q.key)] && ValuesOf([q]) == [q.val.Meaning()];
  }

  /** The map filled from the lists has exactly their keys, and for a repeated key the last
      of its values. */
  lemma {:induction false} FilledLast<V>(keys: seq<string>, values: seq<V>, n: nat, j: nat)
    requires j < n <= |keys| == |values| && forall i :: j < i < n ==> keys[i] != keys[j]
    ensures keys[j] in Filled(keys, values, n) && Filled(keys, values, n)[keys[j]] == values[j]
    decreases n
  {
    if j < n - 1 {
      FilledLast(keys, values, n - 1, j);
    }
  }

  lemma {:induction false} FilledOnly<V>(keys: seq<string>, values: seq<V>, n: nat, k: string)
    requires n <= |keys| == |values| && k in Filled(keys, values, n)
    ensures exists j :: 0 <= j < n && keys[j] == k
    decreases n
  {
    if n > 0 && k != keys[n - 1] {
      FilledOnly(keys, values, n - 1, k);
    }
  }

  // ---- errors ----

  lemma AfterKey(t: string)
    ensures Parse("\"a\"" + t) == Run(Sep, "", ["a"], [], t)
  {
    hide Run;
    RunOpen("a\"" + t);
    assert "\"a\"" + t == "\"" + ("a\"" + t);
    RunHead(Key, "", [], [], "a\"" + t, 'a', "\"" + t);
    RunHead(Key, "a", [], [], "\"" + t, '"', t);
    assert [] + ["a"] == ["a"] && "" + "a" == "a";
  }

  lemma AfterPair(t: string)
    ensures Parse("\"a\"=>\"b\"" + t) == Run(Next, "", ["a"], [NullString("b", true)], t)
  {
    hide Run;
    AfterKey("=>\"b\"" + t);
    assert "\"a\"=>\"b\"" + t == "\"a\"" + ("=>\"b\"" + t);
    RunHead(Sep, "", ["a"], [], "=>\"b\"" + t, '=', ">\"b\"" + t);
    assert (">\"b\"" + t)[2..] == "b\"" + t;
    RunHead(Val, "", ["a"], [], "b\"" + t, 'b', "\"" + t);
    RunHead(Val, "b", ["a"], [], "\"" + t, '"', t);
    assert [] + [NullString("b", true)] == [NullString("b", true)] && "" + "b" == "b";
  }

  /** Text that ends, or goes on otherwise than it may, at each point of a pair. */
  lemma Errors(c: char, t: string)
    ensures c != '"' ==> Parse([c] + t) == Err(NoOpeningQuote)
    ensures Parse("\"\"" + t) == Err(EmptyKey)
    ensures Parse("\"\\") == Err(EndInEscape)
    ensures c != '=' ==> Parse("\"a\"" + ([c] + t)) == Err(NoEquals)
    ensures Parse("\"a\"" + "=") == Err(EndAfterEquals)
    ensures c != '>' ==> Parse("\"a\"" + (['=', c] + t)) == Err(BadAfterEquals)
    ensures Parse("\"a\"" + "=>") == Err(EndAfterArrow)
    ensures c != '"' && c != 'N' ==> Parse("\"a\"" + (['=', '>', c] + t)) == Err(BadAfterArrow)
    ensures Parse("\"a\"") == Err(Improper) && Parse("\"") == Err(Improper) && Parse("") == Ok([], [])
  {
    hide Run;
    StartErrors(c, t);
    AfterKey([c] + t);
    RunHead(Sep, "", ["a"], [], [c] + t, c, t);
    AfterKey("=");
    RunHead(Sep, "", ["a"], [], "=", '=', "");
    AfterKey(['=', c] + t);
    RunHead(Sep, "", ["a"], [], ['=', c] + t, '=', [c] + t);
    AfterKey("=>");
    RunHead(Sep, "", ["a"], [], "=>", '=', ">");
    AfterKey(['=', '>', c] + t);
    RunHead(Sep, "", ["a"], [], ['=', '>', c] + t, '=', ['>', c] + t);
    AfterKey("");
    assert "\"a\"" + "" == "\"a\"";
    RunEnd(Sep, ["a"], []);
  }

  lemma RunEnd(state: State, keys: seq<string>, values: seq<NullString>)
    ensures Run(state, "", keys, values, "") == if state.Next? then Ok(keys, values) else Err(Improper)
  {
  }

  lemma StartErrors(c: char, t: string)
    ensures c != '"' ==> Parse([c] + t) == Err(NoOpeningQuote)
    ensures Parse("\"\"" + t) == Err(EmptyKey)
    ensures Parse("\"\\") == Err(EndInEscape)
    ensures Parse("\"") == Err(Improper)
  {
    hide Run;
    RunHead(Pre, "", [], [], [c] + t, c, t);
    RunOpen("\"" + t);
    assert "\"\"" + t == "\"" + ("\"" + t);
    RunHead(Key, "", [], [], "\"" + t, '"', t);
    RunOpen("\\");
    assert "\"\\" == "\"" + "\\";
    RunHead(Key, "", [], [], "\\", '\\', "");
    RunOpen("");
    assert "\"" + "" == "\"";
    RunEnd(Key, [], []);
  }

  /** The word NULL cut short or misspelt, and what may follow a value. */
  lemma MoreErrors(c: char, t: string)
    ensures Parse("\"a\"" + "=>NUL") == Err(EndInNull)
    ensures c != 'L' ==> Parse("\"a\"" + ("=>NUL" + [c])) == Err(BadNull)
    ensures c != ',' ==> Parse("\"a\"=>\"b\"" + ([c] + t)) == Err(NoComma)
    ensures Parse("\"a\"=>\"b\"" + ",") == Err(EndAfterComma)
    ensures !IsSpace(c) ==> Parse("\"a\"=>\"b\"" + ([',', c] + t)) == Err(NoSpaceAfterComma)
    ensures IsSpace(c) ==> Parse("\"a\"=>\"b\"" + [',', c]) == Err(Improper)
    ensures Parse("\"a\"=>\"b\"") == Ok(["a"], [NullString("b", true)])
  {
    hide Run, IsSpace;
    NullErrors(c);
    var vs := [NullString("b", true)];
    AfterPair([c] + t);
    RunHead(Next, "", ["a"], vs, [c] + t, c, t);
    AfterPair(",");
    RunHead(Next, "", ["a"], vs, ",", ',', "");
    AfterPair([',', c] + t);
    RunHead(Next, "", ["a"], vs, [',', c] + t, ',', [c] + t);
    AfterPair([',', c]);
    RunHead(Next, "", ["a"], vs, [',', c], ',', [c]);
    assert [c][1..] == "";
    RunEnd(Key, ["a"], vs);
    AfterPair("");
    assert "\"a\"=>\"b\"" + "" == "\"a\"=>\"b\"";
    RunEnd(Next, ["a"], vs);
  }

  lemma NullErrors(c: char)
    ensures Parse("\"a\"" + "=>NUL") == Err(EndInNull)
    ensures c != 'L' ==> Parse("\"a\"" + ("=>NUL" + [c])) == Err(BadNull)
  {
    hide Run;
    AfterKey("=>NUL");
    RunHead(Sep, "", ["a"], [], "=>NUL", '=', ">NUL");
    assert ">NUL"[2..] == "UL";
    RunHead(Nul, "", ["a"], [], "UL", 'U', "L");
    var s := "=>NUL" + [c];
    AfterKey(s);
    assert s == ['='] + (">NUL" + [c]);
    RunHead(Sep, "", ["a"], [], s, '=', ">NUL" + [c]);
    assert (">NUL" + [c])[2..] == ['U', 'L', c];
    RunHead(Nul, "", ["a"], [], ['U', 'L', c], 'U', ['L', c]);
  }
}
