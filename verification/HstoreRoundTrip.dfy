/** ParseHstore accepts exactly the documents of HstoreText, and reads back what the
    encoders write. */
module HstoreRoundTrip {
  import opened Sequences
  import opened HstoreText
  import opened HstoreParser

  // ---- every legal document is read as what it means ----

  lemma RunHead(state: State, buf: string, keys: seq<string>, values: seq<NullString>, s: string, r: char, t: string)
    requires s == [r] + t
    ensures Run(state, buf, keys, values, s) == RunOn(state, buf, keys, values, r, t)
  {
    assert s[1..] == t;
  }

  /** Success before the end needs a rune, and then one transition. */
  lemma RunStarts(state: State, buf: string, keys: seq<string>, values: seq<NullString>, s: string)
    requires !(state.Next? && s == "") && Run(state, buf, keys, values, s).Ok?
    ensures s != "" && s == [s[0]] + s[1..]
    ensures Run(state, buf, keys, values, s) == RunOn(state, buf, keys, values, s[0], s[1..])
  {
  }

  lemma RunUnit(state: State, buf: string, keys: seq<string>, values: seq<NullString>, u: Unit, tail: string)
    requires (state.Key? || state.Val?) && u.Legal()
    ensures Run(state, buf, keys, values, u.Spelling() + tail) == Run(state, buf + u.Meaning(), keys, values, tail)
  {
    hide Run;
    if u.Plain? {
      RunHead(state, buf, keys, values, [u.c] + tail, u.c, tail);
    } else {
      var t := [u.c] + tail;
      assert ['\\', u.c] + tail == ['\\'] + t && t[1..] == tail;
      RunHead(state, buf, keys, values, ['\\', u.c] + tail, '\\', t);
    }
  }

  lemma RunClose(state: State, buf: string, keys: seq<string>, values: seq<NullString>, rest: string)
    requires state.Key? || state.Val?
    ensures Run(state, buf, keys, values, "\"" + rest)
         == if state.Val? then Run(Next, "", keys, values + [NullString(buf, true)], rest)
            else if buf == "" then Err(EmptyKey) else Run(Sep, "", keys + [buf], values, rest)
  {
    hide Run;
    RunHead(state, buf, keys, values, "\"" + rest, '"', rest);
  }

  lemma {:induction false} RunUnits(state: State, buf: string, keys: seq<string>, values: seq<NullString>,
                                    units: seq<Unit>, rest: string)
    requires (state.Key? || state.Val?) && AllLegal(units)
    ensures Run(state, buf, keys, values, Spell(units) + "\"" + rest)
         == Run(state, buf + Mean(units), keys, values, "\"" + rest)
    decreases |units|
  {
    hide Run, RunOn;
    if units == [] {
      assert buf + "" == buf;
      assert "" + "\"" + rest == "\"" + rest;
    } else {
      var u, more := units[0], units[1..];
      assert units == [u] + more && u in units;
      SpellCons(u, more);
      hide Spell, Mean;
      assert Spell(units) + "\"" + rest == u.Spelling() + (Spell(more) + "\"" + rest);
      RunUnit(state, buf, keys, values, u, Spell(more) + "\"" + rest);
      RunUnits(state, buf + u.Meaning(), keys, values, more, rest);
      assert buf + u.Meaning() + Mean(more) == buf + Mean(units);
    }
  }

  lemma RunNull(keys: seq<string>, values: seq<NullString>, rest: string)
    ensures Run(Sep, "", keys, values, "=>NULL" + rest) == Run(Next, "", keys, values + [NullString("", false)], rest)
  {
    hide Run;
    var t, l := ">NULL" + rest, "LL" + rest;
    assert "=>NULL" + rest == ['='] + t;
    RunHead(Sep, "", keys, values, "=>NULL" + rest, '=', t);
    assert t[2..] == ['U'] + l;
    RunHead(Nul, "", keys, values, ['U'] + l, 'U', l);
    assert l[2..] == rest;
  }

  lemma RunQuotedValue(keys: seq<string>, values: seq<NullString>, units: seq<Unit>, rest: string)
    requires AllLegal(units)
    ensures Run(Sep, "", keys, values, "=>\"" + Spell(units) + "\"" + rest)
         == Run(Next, "", keys, values + [NullString(Mean(units), true)], rest)
  {
    hide Run, Spell, Mean;
    var body := Spell(units) + "\"" + rest;
    var s, t := "=>\"" + Spell(units) + "\"" + rest, ">\"" + body;
    assert s == ['='] + t;
    RunHead(Sep, "", keys, values, s, '=', t);
    assert t[2..] == body;
    RunUnits(Val, "", keys, values, units, rest);
    assert "" + Mean(units) == Mean(units);
    RunClose(Val, Mean(units), keys, values, rest);
  }

  lemma RunValue(keys: seq<string>, values: seq<NullString>, val: Value, rest: string)
    requires val.Quoted? ==> AllLegal(val.units)
    ensures Run(Sep, "", keys, values, "=>" + val.Spelling() + rest) == Run(Next, "", keys, values + [val.Meaning()], rest)
  {
    hide Run, Spell, Mean;
    if val.Null? {
      RunNull(keys, values, rest);
      assert "=>" + val.Spelling() + rest == "=>NULL" + rest;
    } else {
      RunQuotedValue(keys, values, val.units, rest);
      assert "=>" + val.Spelling() + rest == "=>\"" + Spell(val.units) + "\"" + rest;
    }
  }

  lemma RunKey(keys: seq<string>, values: seq<NullString>, units: seq<Unit>, rest: string)
    requires AllLegal(units)
    ensures Run(Key, "", keys, values, Spell(units) + "\"" + rest)
         == if units == [] then Err(EmptyKey) else Run(Sep, "", keys + [Mean(units)], values, rest)
  {
    hide Run, RunOn, Spell;
    RunUnits(Key, "", keys, values, units, rest);
    assert "" + Mean(units) == Mean(units);
    RunClose(Key, Mean(units), keys, values, rest);
  }

  lemma RunPair(keys: seq<string>, values: seq<NullString>, p: Pair, rest: string)
    requires p.Legal()
    ensures Run(Key, "", keys, values, p.Spelling() + rest)
         == Run(Next, "", keys + [Mean(p.key)], values + [p.val.Meaning()], rest)
  {
    hide Run, RunOn, Spell, Mean;
    var after := "=>" + p.val.Spelling() + rest;
    assert p.Spelling() + rest == Spell(p.key) + "\"" + after;
    RunKey(keys, values, p.key, after);
    RunValue(keys + [Mean(p.key)], values, p.val, rest);
  }

  lemma RunSeparator(keys: seq<string>, values: seq<NullString>, space: char, open: char, rest: string)
    requires IsSpace(space)
    ensures Run(Next, "", keys, values, [',', space, open] + rest) == Run(Key, "", keys, values, rest)
  {
    hide Run;
    var t := [space, open] + rest;
    RunHead(Next, "", keys, values, [',', space, open] + rest, ',', t);
    assert t[2..] == rest;
  }

  lemma PairsSplit(pairs: seq<Pair>)
    requires pairs != [] && LegalPairs(pairs)
    ensures pairs[0].Legal() && LegalPairs(pairs[1..])
    ensures KeysOf(pairs) == [Mean(pairs[0].key)] + KeysOf(pairs[1..])
    ensures ValuesOf(pairs) == [pairs[0].val.Meaning()] + ValuesOf(pairs[1..])
  {
    assert pairs[0] in pairs;
  }

  lemma {:induction false} RunTail(keys: seq<string>, values: seq<NullString>, pairs: seq<Pair>)
    requires LegalPairs(pairs)
    ensures Run(Next, "", keys, values, Tail(pairs)) == Ok(keys + KeysOf(pairs), values + ValuesOf(pairs))
    decreases |pairs|
  {
    if pairs == [] {
      assert Run(Next, "", keys, values, "") == Ok(keys, values);
      assert keys + [] == keys && values + [] == values;
    } else {
      var p, more := pairs[0], pairs[1..];
      PairsSplit(pairs);
      Assoc(keys, [Mean(p.key)], KeysOf(more));
      Assoc(values, [p.val.Meaning()], ValuesOf(more));
      hide Run, RunOn, Mean, Spell, IsSpace, LegalPairs, KeysOf, ValuesOf;
      assert Tail(pairs) == [',', p.space, p.open] + (p.Spelling() + Tail(more));
      RunSeparator(keys, values, p.space, p.open, p.Spelling() + Tail(more));
      RunPair(keys, values, p, Tail(more));
      RunTail(keys + [Mean(p.key)], values + [p.val.Meaning()], more);
    }
  }

  lemma ParseDocument(pairs: seq<Pair>)
    requires LegalPairs(pairs)
    ensures Parse(Document(pairs)) == Ok(KeysOf(pairs), ValuesOf(pairs))
  {
    if pairs == [] {
      assert Parse("") == Ok([], []);
    } else {
      hide *;
      var p, more := pairs[0], pairs[1..];
      PairsSplit(pairs);
      DocumentSplit(pairs);
      RunOpen(p.Spelling() + Tail(more));
      RunPair([], [], p, Tail(more));
      RunTail([] + [Mean(p.key)], [] + [p.val.Meaning()], more);
      assert [] + [Mean(p.key)] == [Mean(p.key)] && [] + [p.val.Meaning()] == [p.val.Meaning()];
    }
  }

  lemma DocumentSplit(pairs: seq<Pair>)
    requires pairs != []
    ensures Document(pairs) == "\"" + (pairs[0].Spelling() + Tail(pairs[1..]))
  {
    hide Pair.Spelling, Tail;
  }

  lemma RunOpen(body: string)
    ensures Parse("\"" + body) == Run(Key, "", [], [], body)
  {
    hide Run;
    RunHead(Pre, "", [], [], "\"" + body, '"', body);
  }

  // ---- everything that is read is a legal document ----

  /** Inside quotes, success means that a unit or the closing quote comes next. */
  lemma UnitRead(state: State, buf: string, keys: seq<string>, values: seq<NullString>, s: string)
    returns (u: Unit, after: string)
    requires (state.Key? || state.Val?) && Run(state, buf, keys, values, s).Ok?
    ensures s != ""
    ensures s[0] == '"' ==> s == "\"" + s[1..] && (state.Key? ==> buf != "")
    ensures s[0] != '"' ==> u.Legal() && s == u.Spelling() + after && |after| < |s|
    ensures s[0] != '"' ==> Run(state, buf + u.Meaning(), keys, values, after).Ok?
  {
    RunStarts(state, buf, keys, values, s);
    hide Run;
    var r, t := s[0], s[1..];
    u, after := Plain(r), t;
    if r == '\\' {
      u, after := Escape(t[0]), t[1..];
    }
  }

  lemma {:induction false} UnitsRead(state: State, buf: string, keys: seq<string>, values: seq<NullString>, s: string)
    returns (units: seq<Unit>, rest: string)
    requires (state.Key? || state.Val?) && Run(state, buf, keys, values, s).Ok?
    ensures AllLegal(units) && s == Spell(units) + "\"" + rest
    ensures state.Key? ==> buf + Mean(units) != ""
    decreases |s|
  {
    hide Run, RunOn;
    var u, after := UnitRead(state, buf, keys, values, s);
    if s[0] == '"' {
      units, rest := [], s[1..];
      assert s == "" + "\"" + rest;
    } else {
      var more;
      more, rest := UnitsRead(state, buf + u.Meaning(), keys, values, after);
      units := [u] + more;
      UnitJoin(u, more, rest);
      hide *;
      Assoc(buf, u.Meaning(), Mean(more));
    }
  }

  lemma UnitJoin(u: Unit, more: seq<Unit>, rest: string)
    requires u.Legal() && AllLegal(more)
    ensures AllLegal([u] + more) && Spell([u] + more) + "\"" + rest == u.Spelling() + (Spell(more) + "\"" + rest)
    ensures Mean([u] + more) == u.Meaning() + Mean(more)
  {
    SpellCons(u, more);
    hide Spell, Mean, Unit.Spelling, Unit.Legal;
    assert u.Spelling() + Spell(more) + "\"" + rest == u.Spelling() + (Spell(more) + "\"" + rest);
  }

  lemma SpellCons(u: Unit, more: seq<Unit>)
    ensures Spell([u] + more) == u.Spelling() + Spell(more)
    ensures Mean([u] + more) == u.Meaning() + Mean(more)
  {
    assert ([u] + more)[1..] == more;
  }

  lemma ArrowRead(keys: seq<string>, values: seq<NullString>, s: string) returns (w: string)
    requires Run(Sep, "", keys, values, s).Ok?
    ensures (s == "=>\"" + w && Run(Val, "", keys, values, w).Ok?) || (s == "=>N" + w && Run(Nul, "", keys, values, w).Ok?)
  {
    RunStarts(Sep, "", keys, values, s);
    hide Run;
    var t := s[1..];
    assert s[0] == '=' && t[0] == '>';
    w := t[2..];
    assert t == [t[0], t[1]] + w;
  }

  lemma NullRead(keys: seq<string>, values: seq<NullString>, w: string) returns (rest: string)
    requires Run(Nul, "", keys, values, w).Ok?
    ensures w == "ULL" + rest
  {
    RunStarts(Nul, "", keys, values, w);
    hide Run;
    var l := w[1..];
    rest := l[2..];
    assert w[0] == 'U' && l == ['L', 'L'] + rest;
  }

  lemma ValueRead(keys: seq<string>, values: seq<NullString>, s: string) returns (val: Value, rest: string)
    requires Run(Sep, "", keys, values, s).Ok?
    ensures (val.Quoted? ==> AllLegal(val.units)) && s == "=>" + val.Spelling() + rest
  {
    hide Run, RunOn, Spell;
    var w := ArrowRead(keys, values, s);
    if s == "=>\"" + w && Run(Val, "", keys, values, w).Ok? {
      var units;
      units, rest := UnitsRead(Val, "", keys, values, w);
      val := Quoted(units);
      assert s == "=>" + val.Spelling() + rest;
    } else {
      rest := NullRead(keys, values, w);
      val := Null;
    }
  }

  /** The pair that follows an opening quote. */
  lemma PairRead(keys: seq<string>, values: seq<NullString>, s: string, space: char, open: char)
    returns (p: Pair, rest: string)
    requires IsSpace(space) && Run(Key, "", keys, values, s).Ok?
    ensures p.Legal() && p.space == space && p.open == open && s == p.Spelling() + rest
    ensures Run(Next, "", keys + [Mean(p.key)], values + [p.val.Meaning()], rest).Ok?
  {
    hide Run, RunOn, Spell;
    var units, after := UnitsRead(Key, "", keys, values, s);
    assert "" + Mean(units) == Mean(units);
    RunKey(keys, values, units, after);
    var val, rest' := ValueRead(keys + [Mean(units)], values, after);
    p, rest := Pair(space, open, units, val), rest';
    assert s == p.Spelling() + rest;
    RunPair(keys, values, p, rest);
  }

  lemma CommaRead(keys: seq<string>, values: seq<NullString>, s: string) returns (space: char, open: char, body: string)
    requires s != "" && Run(Next, "", keys, values, s).Ok?
    ensures IsSpace(space) && s == [',', space, open] + body && Run(Key, "", keys, values, body).Ok?
  {
    RunStarts(Next, "", keys, values, s);
    assert Run(Key, "", keys, values, "") == Err(Improper);
    hide Run;
    var t := s[1..];
    assert s[0] == ',' && |t| >= 2 && IsSpace(t[0]);
    space, open, body := t[0], t[1], t[2..];
    assert t == [space, open] + body;
  }

  lemma {:induction false} TailRead(keys: seq<string>, values: seq<NullString>, s: string) returns (pairs: seq<Pair>)
    requires Run(Next, "", keys, values, s).Ok?
    ensures LegalPairs(pairs) && s == Tail(pairs)
    decreases |s|
  {
    if s == "" {
      pairs := [];
    } else {
      hide *;
      var space, open, body := CommaRead(keys, values, s);
      var p, rest := PairRead(keys, values, body, space, open);
      PairShorter(space, open, p, rest);
      var more := TailRead(keys + [Mean(p.key)], values + [p.val.Meaning()], rest);
      TailJoin(p, more);
      pairs := [p] + more;
    }
  }

  lemma PairShorter(space: char, open: char, p: Pair, rest: string)
    ensures |rest| < |[',', space, open] + (p.Spelling() + rest)|
  {
    hide Pair.Spelling;
  }

  lemma TailJoin(p: Pair, more: seq<Pair>)
    requires p.Legal() && LegalPairs(more)
    ensures LegalPairs([p] + more) && Tail([p] + more) == [',', p.space, p.open] + (p.Spelling() + Tail(more))
  {
    hide Pair.Legal, Pair.Spelling;
    assert ([p] + more)[1..] == more;
    Assoc([',', p.space, p.open], p.Spelling(), Tail(more));
  }

  /** ParseHstore succeeds on the legal documents and on nothing else, and what it returns
      is what the document means. */
  lemma AcceptedLanguage(s: string)
    ensures Parse(s).Ok? <==> exists pairs :: LegalPairs(pairs) && Document(pairs) == s
    ensures forall pairs :: LegalPairs(pairs) && Document(pairs) == s ==> Parse(s) == Ok(KeysOf(pairs), ValuesOf(pairs))
  {
    hide Parse, LegalPairs, Document, KeysOf, ValuesOf;
    forall pairs | LegalPairs(pairs) && Document(pairs) == s
      ensures Parse(s) == Ok(KeysOf(pairs), ValuesOf(pairs))
    {
      ParseDocument(pairs);
    }
    if Parse(s).Ok? {
      var pairs := DocumentRead(s);
    }
  }

  lemma DocumentRead(s: string) returns (pairs: seq<Pair>)
    requires Parse(s).Ok?
    ensures LegalPairs(pairs) && Document(pairs) == s
  {
    if s == "" {
      pairs := [];
    } else {
      OpenRead(s);
      hide *;
      SpaceIsSpace();
      var p, rest := PairRead([], [], s[1..], ' ', '"');
      var more := TailRead([] + [Mean(p.key)], [] + [p.val.Meaning()], rest);
      PairsJoin(p, more);
      pairs := [p] + more;
    }
  }

  lemma OpenRead(s: string)
    requires s != "" && Parse(s).Ok?
    ensures s == "\"" + s[1..] && Run(Key, "", [], [], s[1..]).Ok?
  {
    RunStarts(Pre, "", [], [], s);
    hide Run;
  }

  lemma PairsJoin(p: Pair, more: seq<Pair>)
    requires p.Legal() && LegalPairs(more)
    ensures LegalPairs([p] + more) && Document([p] + more) == "\"" + (p.Spelling() + Tail(more))
  {
    hide Pair.Legal, Pair.Spelling, Tail, Document;
    assert ([p] + more)[1..] == more;
    DocumentSplit([p] + more);
  }

  lemma SpaceIsSpace()
    ensures IsSpace(' ')
  {
  }

  // ---- round trip ----

  function NormalValues(order: seq<string>, h: map<string, NullString>): (vs: seq<NullString>)
    requires forall k :: k in order ==> k in h
    ensures |vs| == |order|
  {
    seq(|order|, i requires 0 <= i < |order| => h[order[i]].Normal())
  }

  function PairFor(k: string, v: NullString): Pair {
    Pair(' ', '"', UnitsFor(k), if v.valid then Quoted(UnitsFor(v.text)) else Null)
  }

  lemma PairForSpells(k: string, v: NullString)
    requires k != ""
    ensures PairFor(k, v).Legal() && PairText(k, v) == "\"" + PairFor(k, v).Spelling()
    ensures Mean(PairFor(k, v).key) == k && PairFor(k, v).val.Meaning() == v.Normal()
  {
    hide Quote, Spell, UnitsFor, Mean;
    QuoteSpells(k);
    QuoteSpells(v.text);
  }

  /** Reading one pair that Encode wrote, from after its opening quote. */
  lemma RunOwnPair(keys: seq<string>, values: seq<NullString>, k: string, v: NullString, rest: string)
    ensures PairText(k, v) != "" && PairText(k, v)[0] == '"'
    ensures Run(Key, "", keys, values, PairText(k, v)[1..] + rest)
         == if k == "" then Err(EmptyKey) else Run(Next, "", keys + [k], values + [v.Normal()], rest)
  {
    hide Run;
    var text := PairText(k, v)[1..] + rest;
    if k == "" {
      assert Quote("") == "";
      assert text[0] == '"' && text == ['"'] + text[1..];
      RunHead(Key, "", keys, values, text, '"', text[1..]);
    } else {
      hide Quote, Spell, UnitsFor, Mean, RunOn;
      PairForSpells(k, v);
      assert text == PairFor(k, v).Spelling() + rest;
      RunPair(keys, values, PairFor(k, v), rest);
    }
  }

  lemma PairTextStarts(k: string, v: NullString)
    ensures PairText(k, v) != "" && PairText(k, v)[0] == '"'
  {
    hide Quote;
  }

  /** The text of the pairs after the first, with its separator. */
  function RestText(order: seq<string>, h: map<string, NullString>): string
    requires order != [] && forall k :: k in order ==> k in h
  {
    if |order| == 1 then "" else ", " + Text(order[1..], h)
  }

  lemma TextSplit(order: seq<string>, h: map<string, NullString>)
    requires order != [] && forall k :: k in order ==> k in h
    ensures Text(order, h) != "" && Text(order, h)[0] == '"'
    ensures Text(order, h)[1..] == PairText(order[0], h[order[0]])[1..] + RestText(order, h)
  {
    PairTextStarts(order[0], h[order[0]]);
    hide PairText;
  }

  lemma ValuesSplit(order: seq<string>, h: map<string, NullString>)
    requires order != [] && forall k :: k in order ==> k in h
    ensures NormalValues(order, h) == [h[order[0]].Normal()] + NormalValues(order[1..], h)
  {
  }

  lemma {:induction false} RunText(keys: seq<string>, values: seq<NullString>, order: seq<string>,
                                   h: map<string, NullString>)
    requires order != [] && forall k :: k in order ==> k in h
    ensures Run(Key, "", keys, values, Text(order, h)[1..])
         == if "" in order then Err(EmptyKey) else Ok(keys + order, values + NormalValues(order, h))
    decreases |order|
  {
    var k, v, more := order[0], h[order[0]], order[1..];
    assert order == [k] + more;
    assert "" in order <==> k == "" || "" in more;
    TextSplit(order, h);
    ValuesSplit(order, h);
    Assoc(keys, [k], more);
    Assoc(values, [v.Normal()], NormalValues(more, h));
    RunOwnPair(keys, values, k, v, RestText(order, h));
    hide Text, PairText, NormalValues;
    if more != [] {
      hide Run, RunOn;
      TextSplit(more, h);
      RunComma(keys + [k], values + [v.Normal()], Text(more, h));
      RunText(keys + [k], values + [v.Normal()], more, h);
    } else {
      assert NormalValues(more, h) == [];
    }
  }

  lemma RunComma(keys: seq<string>, values: seq<NullString>, t: string)
    requires t != "" && t[0] == '"'
    ensures Run(Next, "", keys, values, ", " + t) == Run(Key, "", keys, values, t[1..])
  {
    hide Run;
    assert ", " + t == [',', ' ', '"'] + t[1..];
    RunSeparator(keys, values, ' ', '"', t[1..]);
  }

  /** For every map and every order of its keys: the text parses back to the keys in that
      order with their values, unless a key is empty, and then to the EmptyKey error. */
  lemma RoundTrip(order: seq<string>, h: map<string, NullString>)
    requires forall k :: k in order ==> k in h
    ensures Parse(Text(order, h)) == if "" in order then Err(EmptyKey) else Ok(order, NormalValues(order, h))
  {
    if order != [] {
      hide Run, RunOn, Text, NormalValues;
      RunText([], [], order, h);
      TextSplit(order, h);
      var text := Text(order, h);
      assert text == "\"" + text[1..];
      RunOpen(text[1..]);
      assert [] + order == order && [] + NormalValues(order, h) == NormalValues(order, h);
    }
  }

  // ---- hstore columns as maps ----

  datatype MapResult<V> = Map(m: map<string, V>) | Failed(error: ParseError) | NullValue(key: string)

  /** The map filled from the first n pairs; a later pair replaces an earlier one. */
  function Filled<V>(keys: seq<string>, values: seq<V>, n: nat): map<string, V>
    requires n <= |keys| == |values|
  {
    if n == 0 then map[] else Filled(keys, values, n - 1)[keys[n - 1] := values[n - 1]]
  }

  function TextsOf(values: seq<NullString>): (ts: seq<string>)
    ensures |ts| == |values|
  {
    seq(|values|, i requires 0 <= i < |values| => values[i].text)
  }

  /** parseHstoreToNullHstore. */
  method ToNullHstore(s: string) returns (res: MapResult<NullString>)
    ensures match Parse(s)
            case Err(e) => res == Failed(e)
            case Ok(keys, values) => |keys| == |values| && res == Map(Filled(keys, values, |keys|))
  {
    var parsed := ParseHstore(s);
    if parsed.Err? {
      return Failed(parsed.error);
    }
    var store: map<string, NullString> := map[];
    for i := 0 to |parsed.keys|
      invariant store == Filled(parsed.keys, parsed.values, i)
    {
      store := store[parsed.keys[i] := parsed.values[i]];
    }
    return Map(store);
  }

  /** parseHstoreToMap: the first NULL value fails the whole column. */
  method ToMap(s: string) returns (res: MapResult<string>)
    ensures match Parse(s)
            case Err(e) => res == Failed(e)
            case Ok(keys, values) =>
              |keys| == |values| &&
              if forall v :: v in values ==> v.valid then res == Map(Filled(keys, TextsOf(values), |keys|))
              else exists i :: 0 <= i < |keys| && !values[i].valid && (forall j :: 0 <= j < i ==> values[j].valid)
                               && res == NullValue(keys[i])
  {
    var parsed := ParseHstore(s);
    if parsed.Err? {
      return Failed(parsed.error);
    }
    var m: map<string, string> := map[];
    for i := 0 to |parsed.keys|
      invariant forall j :: 0 <= j < i ==> parsed.values[j].valid
      invariant m == Filled(parsed.keys, TextsOf(parsed.values), i)
    {
      if !parsed.values[i].valid {
        assert parsed.values[i] in parsed.values;
        return NullValue(parsed.keys[i]);
      }
      m := m[parsed.keys[i] := parsed.values[i].text];
    }
    return Map(m);
  }

  lemma {:induction false} FilledKeys<V>(keys: seq<string>, values: seq<V>, n: nat)
    requires n <= |keys| == |values|
    requires forall i, j :: 0 <= i < j < |keys| ==> keys[i] != keys[j]
    ensures forall k :: k in Filled(keys, values, n) <==> k in keys[..n]
    ensures forall i :: 0 <= i < n ==> keys[i] in Filled(keys, values, n) && Filled(keys, values, n)[keys[i]] == values[i]
  {
    if n > 0 {
      FilledKeys(keys, values, n - 1);
      assert Filled(keys, values, n) == Filled(keys, values, n - 1)[keys[n - 1] := values[n - 1]];
      assert keys[..n] == keys[..n - 1] + [keys[n - 1]];
      hide *;
      OneMore(Filled(keys, values, n - 1), keys, values, n - 1);
    }
  }

  lemma OneMore<V>(m: map<string, V>, keys: seq<string>, values: seq<V>, n: nat)
    requires n < |keys| == |values|
    requires forall i, j :: 0 <= i < j < |keys| ==> keys[i] != keys[j]
    requires forall i :: 0 <= i < n ==> keys[i] in m && m[keys[i]] == values[i]
    ensures var m' := m[keys[n] := values[n]];
      forall i :: 0 <= i < n + 1 ==> keys[i] in m' && m'[keys[i]] == values[i]
  {
  }

  /** Pairs with distinct keys fill the map that they list. */
  lemma FilledMap<V>(order: seq<string>, values: seq<V>, m: map<string, V>)
    requires |order| == |values| && Enumerates(order, m)
    requires forall i :: 0 <= i < |order| ==> values[i] == m[order[i]]
    ensures Filled(order, values, |order|) == m
  {
    FilledKeys(order, values, |order|);
    assert order[..|order|] == order;
    var back := Filled(order, values, |order|);
    forall k | k in m ensures k in back && back[k] == m[k] {
      var i :| 0 <= i < |order| && order[i] == k;
    }
  }

  /** NullHstore: whatever order Encode chose, reading its text gives the map back, NULLs
      included, exactly when no key is empty. */
  lemma NullHstoreRoundTrip(order: seq<string>, h: map<string, NullString>)
    requires Enumerates(order, h)
    ensures "" in h ==> Parse(Text(order, h)) == Err(EmptyKey)
    ensures "" !in h ==> Parse(Text(order, h)) == Ok(order, NormalValues(order, h))
    ensures Filled(order, NormalValues(order, h), |order|) == map k | k in h :: h[k].Normal()
  {
    hide Text, Parse, Filled;
    RoundTrip(order, h);
    FilledMap(order, NormalValues(order, h), map k | k in h :: h[k].Normal());
  }

  /** Hstore: the same for maps of plain strings. */
  lemma HstoreRoundTrip(order: seq<string>, m: map<string, string>)
    requires Enumerates(order, m)
    ensures "" in m ==> Parse(Text(order, AllValid(m))) == Err(EmptyKey)
    ensures "" !in m ==> Parse(Text(order, AllValid(m))) == Ok(order, NormalValues(order, AllValid(m)))
    ensures forall v :: v in NormalValues(order, AllValid(m)) ==> v.valid
    ensures Filled(order, TextsOf(NormalValues(order, AllValid(m))), |order|) == m
  {
    hide Text, Parse, Filled;
    RoundTrip(order, AllValid(m));
    FilledMap(order, TextsOf(NormalValues(order, AllValid(m))), m);
  }
}
