/** hstore.go: ParseHstore as a seven-state machine over runes, the language it accepts,
    and the round trip with the encoders. */
module HstoreParser {
  import opened HstoreText

  datatype ParseError =
    | NoOpeningQuote | EmptyKey | EndInEscape | EndAfterEquals | BadAfterEquals | EndAfterArrow | BadAfterArrow
    | NoEquals | EndInNull | BadNull | EndAfterComma | NoSpaceAfterComma | NoComma | Improper

  datatype ParseResult = Ok(keys: seq<string>, values: seq<NullString>) | Err(error: ParseError)

  datatype State = Pre | Key | Sep | Val | Nul | Next

  // ---- the machine, as a function of the unread text ----

  /** What happens to the current rune r and the text t after it: an error, or a new
      state with `used` runes of t consumed besides r. */
  datatype Outcome = Fail(error: ParseError) | Go(state: State, used: nat)

  function Arrow(r: char, t: string): (o: Outcome)
    ensures o.Go? ==> o.used <= |t| && (o.state.Val? || o.state.Nul?)
  {
    if r != '=' then Fail(NoEquals)
    else if t == "" then Fail(EndAfterEquals)
    else if t[0] != '>' then Fail(BadAfterEquals)
    else if |t| == 1 then Fail(EndAfterArrow)
    else if t[1] == '"' then Go(Val, 2)
    else if t[1] == 'N' then Go(Nul, 2)
    else Fail(BadAfterArrow)
  }

  function NullWord(r: char, t: string): (o: Outcome)
    ensures o.Go? ==> o.used <= |t| && o.state.Next?
  {
    if |t| < 2 then Fail(EndInNull)
    else if r == 'U' && t[0] == 'L' && t[1] == 'L' then Go(Next, 2)
    else Fail(BadNull)
  }

  /** After the comma and the space, one more rune is skipped without being looked at. */
  function Comma(r: char, t: string): (o: Outcome)
    ensures o.Go? ==> o.used <= |t| && o.state.Key?
  {
    if r != ',' then Fail(NoComma)
    else if t == "" then Fail(EndAfterComma)
    else if !IsSpace(t[0]) then Fail(NoSpaceAfterComma)
    else Go(Key, if |t| == 1 then 1 else 2)
  }

  /** s is what has not been handled yet, its first character being the current rune;
      s == "" is the end of the input. */
  function Run(state: State, buf: string, keys: seq<string>, values: seq<NullString>, s: string): ParseResult
    decreases |s|, 0
  {
    if s == "" then (if state.Next? then Ok(keys, values) else Err(Improper))
    else RunOn(state, buf, keys, values, s[0], s[1..])
  }

  function RunOn(state: State, buf: string, keys: seq<string>, values: seq<NullString>, r: char, t: string): ParseResult
    decreases |t|, 1
  {
    match state
    case Pre =>
      if r == '"' then Run(Key, buf, keys, values, t) else Err(NoOpeningQuote)
    case Key =>
      if r == '"' then (if buf == "" then Err(EmptyKey) else Run(Sep, "", keys + [buf], values, t))
      else if r != '\\' then Run(Key, buf + [r], keys, values, t)
      else if t == "" then Err(EndInEscape)
      else Run(Key, buf + Escape(t[0]).Meaning(), keys, values, t[1..])
    case Sep =>
      (match Arrow(r, t) case Fail(e) => Err(e) case Go(next, n) => Run(next, buf, keys, values, t[n..]))
    case Val =>
      if r == '"' then Run(Next, "", keys, values + [NullString(buf, true)], t)
      else if r != '\\' then Run(Val, buf + [r], keys, values, t)
      else if t == "" then Err(EndInEscape)
      else Run(Val, buf + Escape(t[0]).Meaning(), keys, values, t[1..])
    case Nul =>
      (match NullWord(r, t)
       case Fail(e) => Err(e)
       case Go(next, n) => Run(next, buf, keys, values + [NullString("", false)], t[n..]))
    case Next =>
      (match Comma(r, t) case Fail(e) => Err(e) case Go(next, n) => Run(next, buf, keys, values, t[n..]))
  }

  function Parse(s: string): ParseResult {
    if s == "" then Ok([], []) else Run(Pre, "", [], [], s)
  }

  // ---- hstore.go ----

  class Reader {
    const str: string
    var pos: nat

    constructor (s: string)
      ensures str == s && Valid() && Unread() == s
    {
      str := s;
      pos := 0;
    }

    ghost predicate Valid()
      reads this
    {
      pos <= |str|
    }

    /** What Consume will return, one rune after another. */
    ghost function Unread(): string
      requires Valid()
      reads this
    {
      str[pos..]
    }

    method Consume() returns (r: char, end: bool)
      requires Valid()
      modifies this
      ensures Valid()
      ensures end <==> old(Unread()) == ""
      ensures !end ==> old(Unread()) == [r] + Unread()
      ensures end ==> Unread() == ""
    {
      r, end := '\0', false;
      if pos >= |str| {
        end := true;
        return;
      }
      r := str[pos];
      pos := pos + 1;
    }
  }

  /** What is left to handle: the current rune, if there is one, and the unread text. */
  function Pending(r: char, end: bool, unread: string): string {
    if end then "" else [r] + unread
  }

  /** How many keys are ahead of the values in each state. */
  function Owed(state: State): nat {
    if state.Sep? || state.Val? || state.Nul? then 1 else 0
  }

  /** A backslash has been read: what it and the next rune add to the buffer. */
  method Escaped(p: Reader, r: char) returns (more: string, failed: bool)
    requires p.Valid() && r == '\\'
    modifies p
    ensures p.Valid()
    ensures failed <==> old(p.Unread()) == ""
    ensures !failed ==> more == Escape(old(p.Unread())[0]).Meaning() && p.Unread() == old(p.Unread())[1..]
  {
    var n, end := p.Consume();
    if end {
      return "", true;
    } else if n == '"' || n == '\\' {
      return [n], false;
    } else {
      return [r, n], false;
    }
  }

  /** State hsSep. */
  method ReadArrow(p: Reader, r0: char) returns (o: Outcome)
    requires p.Valid()
    modifies p
    ensures p.Valid() && o == Arrow(r0, old(p.Unread()))
    ensures o.Go? ==> p.Unread() == old(p.Unread())[o.used..]
  {
    var r, end := r0, false;
    if r == '=' {
      r, end := p.Consume();
      if end {
        return Fail(EndAfterEquals);
      } else if r == '>' {
        r, end := p.Consume();
        if end {
          return Fail(EndAfterArrow);
        } else if r == '"' {
          return Go(Val, 2);
        } else if r == 'N' {
          return Go(Nul, 2);
        } else {
          return Fail(BadAfterArrow);
        }
      } else {
        return Fail(BadAfterEquals);
      }
    } else {
      return Fail(NoEquals);
    }
  }

  /** State hsNul. */
  method ReadNull(p: Reader, r0: char) returns (o: Outcome)
    requires p.Valid()
    modifies p
    ensures p.Valid() && o == NullWord(r0, old(p.Unread()))
    ensures o.Go? ==> p.Unread() == old(p.Unread())[o.used..]
  {
    var r1, end := p.Consume();
    if end {
      return Fail(EndInNull);
    }
    var r2;
    r2, end := p.Consume();
    if end {
      return Fail(EndInNull);
    }
    if r0 == 'U' && r1 == 'L' && r2 == 'L' {
      return Go(Next, 2);
    } else {
      return Fail(BadNull);
    }
  }

  /** State hsNext. */
  method ReadComma(p: Reader, r0: char) returns (o: Outcome)
    requires p.Valid()
    modifies p
    ensures p.Valid() && o == Comma(r0, old(p.Unread()))
    ensures o.Go? ==> p.Unread() == old(p.Unread())[o.used..]
  {
    if r0 == ',' {
      var r, end := p.Consume();
      if end {
        return Fail(EndAfterComma);
      } else if IsSpace(r) {
        r, end := p.Consume();
        return Go(Key, if end then 1 else 2);
      } else {
        return Fail(NoSpaceAfterComma);
      }
    } else {
      return Fail(NoComma);
    }
  }

  /** The switch of the main loop, for the current rune r. */
  method Step(p: Reader, state: State, buf: string, keys: seq<string>, values: seq<NullString>, r: char)
    returns (o: Outcome, buf': string, keys': seq<string>, values': seq<NullString>)
    requires p.Valid() && |keys| == |values| + Owed(state)
    modifies p
    ensures p.Valid() && (o.Go? ==> |p.Unread()| <= |old(p.Unread())|)
    ensures o.Fail? ==> RunOn(state, buf, keys, values, r, old(p.Unread())) == Err(o.error)
    ensures o.Go? ==> RunOn(state, buf, keys, values, r, old(p.Unread())) == Run(o.state, buf', keys', values', p.Unread())
    ensures o.Go? ==> |keys'| == |values'| + Owed(o.state)
  {
    hide Arrow, NullWord, Comma, Run;
    buf', keys', values' := buf, keys, values;
    match state {
      case Pre =>
        if r == '"' {
          return Go(Key, 0), buf, keys, values;
        } else {
          return Fail(NoOpeningQuote), buf, keys, values;
        }
      case Key =>
        if r == '"' {
          if |buf| == 0 {
            return Fail(EmptyKey), buf, keys, values;
          } else {
            return Go(Sep, 0), "", keys + [buf], values;
          }
        } else if r == '\\' {
          var more, failed := Escaped(p, r);
          return if failed then Fail(EndInEscape) else Go(Key, 1), buf + more, keys, values;
        } else {
          return Go(Key, 0), buf + [r], keys, values;
        }
      case Sep =>
        o := ReadArrow(p, r);
      case Val =>
        if r == '"' {
          return Go(Next, 0), "", keys, values + [NullString(buf, true)];
        } else if r == '\\' {
          var more, failed := Escaped(p, r);
          return if failed then Fail(EndInEscape) else Go(Val, 1), buf + more, keys, values;
        } else {
          return Go(Val, 0), buf + [r], keys, values;
        }
      case Nul =>
        o := ReadNull(p, r);
        values' := values + [NullString("", false)];
      case Next =>
        o := ReadComma(p, r);
    }
  }

  lemma PendingRun(state: State, buf: string, keys: seq<string>, values: seq<NullString>, r: char, end: bool, t: string)
    ensures Run(state, buf, keys, values, Pending(r, end, t))
         == if end then (if state.Next? then Ok(keys, values) else Err(Improper))
            else RunOn(state, buf, keys, values, r, t)
  {
    hide RunOn;
    assert ([r] + t)[1..] == t;
  }

  method ParseHstore(s: string) returns (res: ParseResult)
    ensures res == Parse(s)
    ensures res.Ok? ==> |res.keys| == |res.values|
  {
    hide Run, RunOn, Reader.Unread, Reader.Valid;
    if s == "" {
      return Ok([], []);
    }
    var buf, keys, values := "", [], [];
    var p := new Reader(s);
    var r, end := p.Consume();
    var state := Pre;
    while !end
      invariant fresh(p) && p.Valid() && (end ==> p.Unread() == "")
      invariant Parse(s) == Run(state, buf, keys, values, Pending(r, end, p.Unread()))
      invariant |keys| == |values| + Owed(state)
      decreases |Pending(r, end, p.Unread())|
    {
      PendingRun(state, buf, keys, values, r, end, p.Unread());
      var o, buf', keys', values' := Step(p, state, buf, keys, values, r);
      if o.Fail? {
        return Err(o.error);
      }
      state, buf, keys, values := o.state, buf', keys', values';
      r, end := p.Consume();
    }
    PendingRun(state, buf, keys, values, r, end, p.Unread());
    if !state.Next? {
      return Err(Improper);
    }
    return Ok(keys, values);
  }
}
