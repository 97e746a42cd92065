/** The EXPRESS schema tokenizer (`Tokenizer.next` in IfcExpressParser.py).
    One call reads the file two characters at a time from the cursor, skips
    `(* ... *)` remarks (ISO 10303-11 section 7.1.6) and whitespace, and
    returns the next token; a token ends at whitespace or next to one of the
    terminator characters `,;()=[]:`.  `in_string` is initialised to false
    and never set, so the doubled-quote branch is dead and not modelled
    beyond that fact. */
module ExpressTokenizer {
  import opened Wrappers

  /** Python 2 `str.isspace` on one byte. */
  predicate IsSpace(c: char)
  {
    c == ' ' || c == '\t' || c == '\n' || c == '\r' || c as int == 11 || c as int == 12
  }

  /** `Tokenizer.termchars`. */
  predicate IsTermChar(c: char)
  {
    c == ',' || c == ';' || c == '(' || c == ')' || c == '=' || c == '[' || c == ']' || c == ':'
  }

  /** Outcome of one call of `next`: the iteration stops (StopIteration), or a
      token is returned and the cursor is left at `next`. */
  datatype Step = Stop | Emit(token: string, next: nat)

  predicate IsRemarkOpen(text: seq<char>, p: nat) { p + 2 <= |text| && text[p] == '(' && text[p + 1] == '*' }
  predicate IsRemarkClose(text: seq<char>, p: nat) { p + 2 <= |text| && text[p] == '*' && text[p + 1] == ')' }

  /** The loop of `get()` as written, from cursor `p` with the token built so
      far in `buffer` and the remark flag `inRemark`. */
  function Scan(text: seq<char>, p: nat, buffer: string, inRemark: bool): (r: Step)
    requires p <= |text|
    ensures r.Emit? ==> p <= r.next <= |text| && (buffer == [] ==> p < r.next)
    decreases |text| - p
  {
    if p + 2 > |text| then Stop
    else if IsRemarkOpen(text, p) then Scan(text, p + 2, buffer, true)
    else if IsRemarkClose(text, p) then Scan(text, p + 2, buffer, false)
    else if IsSpace(text[p]) then
      if buffer != [] then Emit(buffer, p + 1) else Scan(text, p + 1, buffer, inRemark)
    else if !inRemark then
      if buffer != [] && (IsTermChar(text[p]) || IsTermChar(buffer[|buffer| - 1])) then Emit(buffer, p)
      else Scan(text, p + 1, buffer + [text[p]], inRemark)
    else Scan(text, p + 1, buffer, inRemark)
  }

  /** One call of `next` from cursor `p`: `get()` starts with an empty buffer
      and the remark flag cleared. */
  function NextToken(text: seq<char>, p: nat): (r: Step)
    requires p <= |text|
    ensures r.Emit? ==> p < r.next <= |text|
  {
    Scan(text, p, [], false)
  }

  /** Every token of the stream from `p` (what `list(Tokenizer(f))` collects). */
  function Tokens(text: seq<char>, p: nat): seq<string>
    requires p <= |text|
    decreases |text| - p
  {
    match NextToken(text, p)
    case Stop => []
    case Emit(t, q) => [t] + Tokens(text, q)
  }

  /** A token is either a single character or contains no terminator. */
  predicate WellShaped(b: string)
  {
    |b| == 1 || forall i :: 0 <= i < |b| ==> !IsTermChar(b[i])
  }

  predicate NoSpace(b: string)
  {
    forall i :: 0 <= i < |b| ==> !IsSpace(b[i])
  }

  lemma {:induction false} ScanShape(text: seq<char>, p: nat, buffer: string, inRemark: bool)
    requires p <= |text|
    requires WellShaped(buffer) && NoSpace(buffer)
    ensures Scan(text, p, buffer, inRemark).Emit? ==>
      var t := Scan(text, p, buffer, inRemark).token;
      t != [] && NoSpace(t) && WellShaped(t)
    decreases |text| - p
  {
    if p + 2 > |text| {
    } else if IsRemarkOpen(text, p) {
      ScanShape(text, p + 2, buffer, true);
    } else if IsRemarkClose(text, p) {
      ScanShape(text, p + 2, buffer, false);
    } else if IsSpace(text[p]) {
      if buffer == [] { ScanShape(text, p + 1, buffer, inRemark); }
    } else if !inRemark {
      if buffer != [] && (IsTermChar(text[p]) || IsTermChar(buffer[|buffer| - 1])) {
      } else {
        var b' := buffer + [text[p]];
        assert NoSpace(b');
        assert WellShaped(b') by {
          if buffer != [] {
            assert !IsTermChar(buffer[|buffer| - 1]) && !IsTermChar(text[p]);
            assert forall i :: 0 <= i < |buffer| ==> !IsTermChar(buffer[i]);
          }
        }
        ScanShape(text, p + 1, b', inRemark);
      }
    } else {
      ScanShape(text, p + 1, buffer, inRemark);
    }
  }

  /** Every emitted token is non-empty and free of whitespace, and a token
      holding a terminator character is exactly that one character. */
  lemma NextTokenShape(text: seq<char>, p: nat)
    requires p <= |text|
    ensures NextToken(text, p).Emit? ==>
      var t := NextToken(text, p).token;
      t != [] && NoSpace(t) &&
      (forall i :: 0 <= i < |t| && IsTermChar(t[i]) ==> t == [t[i]])
  {
    ScanShape(text, p, [], false);
  }

  /** Fewer than two characters left: the stream ends, whatever was built. */
  lemma StopsNearEnd(text: seq<char>, p: nat, buffer: string, inRemark: bool)
    requires p <= |text| && |text| - p < 2
    ensures Scan(text, p, buffer, inRemark) == Stop
  {
  }

  /** A partially built token at the end of the file is dropped, and the last
      character of the file is never read into a token. */
  lemma TrailingTokenDropped()
    ensures Tokens("ab c", 0) == ["ab"]
    ensures Tokens("abc", 0) == []
  {
    assert Scan("abc", 2, "ab", false) == Stop;
    assert NextToken("ab c", 0) == Emit("ab", 3) by {
      assert Scan("ab c", 2, "ab", false) == Emit("ab", 3);
    }
    assert Tokens("ab c", 3) == [];
  }

  /** No pair in `text[from..to]` starts or ends a remark. */
  predicate NoRemarkMarks(text: seq<char>, from: nat, to: nat)
    requires from <= to <= |text|
  {
    forall i :: from <= i < to ==> !IsRemarkOpen(text, i) && !IsRemarkClose(text, i)
  }

  /** With nothing in the buffer, a remark `(* ... *)` is skipped entirely:
      the call behaves as if it started right after the closing `*)`. */
  lemma {:induction false} RemarkSkippedWhenBufferEmpty(text: seq<char>, p: nat, q: nat)
    requires p <= q && IsRemarkClose(text, q)
    requires NoRemarkMarks(text, p, q)
    ensures Scan(text, p, [], true) == Scan(text, q + 2, [], false)
    decreases q - p
  {
    if p < q {
      RemarkSkippedWhenBufferEmpty(text, p + 1, q);
    }
  }

  /** A call that starts right after a token inside a remark, as written:
      `in_remark` is local to one call, so whitespace inside the remark ends
      the pending token and the next call reads the remark's text as tokens. */
  lemma RemarkLeaksAcrossCalls()
    ensures NextToken("A(* B *);;", 0) == Emit("A", 4)
    ensures NextToken("A(* B *);;", 4) == Emit("B", 6)
  {
    assert Scan("A(* B *);;", 3, "A", true) == Emit("A", 4);
    assert Scan("A(* B *);;", 5, "B", false) == Emit("B", 6);
  }

  /** The corrected scanner: whitespace inside a remark is skipped like any
      other remark character instead of ending the pending token. */
  function ScanFixed(text: seq<char>, p: nat, buffer: string, inRemark: bool): (r: Step)
    requires p <= |text|
    ensures r.Emit? ==> p <= r.next <= |text| && (buffer == [] ==> p < r.next)
    decreases |text| - p
  {
    if p + 2 > |text| then Stop
    else if IsRemarkOpen(text, p) then ScanFixed(text, p + 2, buffer, true)
    else if IsRemarkClose(text, p) then ScanFixed(text, p + 2, buffer, false)
    else if inRemark then ScanFixed(text, p + 1, buffer, inRemark)
    else if IsSpace(text[p]) then
      if buffer != [] then Emit(buffer, p + 1) else ScanFixed(text, p + 1, buffer, inRemark)
    else if buffer != [] && (IsTermChar(text[p]) || IsTermChar(buffer[|buffer| - 1])) then Emit(buffer, p)
    else ScanFixed(text, p + 1, buffer + [text[p]], inRemark)
  }

  /** Corrected: a remark is skipped entirely whatever has been built so far,
      so no character between `(*` and `*)` reaches a token. */
  lemma {:induction false} FixedRemarkTransparent(text: seq<char>, p: nat, q: nat, buffer: string)
    requires p <= q && IsRemarkClose(text, q)
    requires NoRemarkMarks(text, p, q)
    ensures ScanFixed(text, p, buffer, true) == ScanFixed(text, q + 2, buffer, false)
    decreases q - p
  {
    if p < q {
      FixedRemarkTransparent(text, p + 1, q, buffer);
    }
  }

  /** Corrected: the example above yields only the two real tokens before
      the terminators. */
  lemma FixedExample()
    ensures ScanFixed("A(* B *);;", 0, [], false) == Emit("A", 8)
  {
    FixedRemarkTransparent("A(* B *);;", 3, 6, "A");
  }

  /** Tokens and the cursor of an EXPRESS schema being read (`Tokenizer`
      wrapping an open file). */
  class Tokenizer {
    var text: seq<char>
    var pos: nat

    ghost predicate Valid()
      reads this
    {
      pos <= |text|
    }

    constructor (text: seq<char>)
      ensures Valid() && this.text == text && pos == 0
    {
      this.text := text;
      pos := 0;
    }

    /** `next()`: the step taken is the one `NextToken` describes; on a
        token the cursor is left where scanning will resume, on StopIteration
        the file has been read to its end. */
    method Next() returns (r: Step)
      requires Valid()
      modifies this
      ensures Valid() && text == old(text)
      ensures r == NextToken(text, old(pos))
      ensures pos == (if r.Emit? then r.next else |text|)
    {
      var buffer: string := [];
      var inRemark := false;
      var p := pos;
      while true
        invariant p <= |text|
        invariant Scan(text, p, buffer, inRemark) == NextToken(text, old(pos))
        decreases |text| - p
      {
        if p + 2 > |text| {
          pos := |text|;
          return Stop;
        }
        var c0, c1 := text[p], text[p + 1];
        p := p + 2;
        if (c0 == '(' && c1 == '*') || (c0 == '*' && c1 == ')') {
          inRemark := c0 == '(';
          continue;
        }
        p := p - 1;
        if IsSpace(c0) {
          if |buffer| > 0 {
            pos := p;
            return Emit(buffer, p);
          }
          continue;
        }
        if !inRemark {
          if |buffer| > 0 && (IsTermChar(c0) || IsTermChar(buffer[|buffer| - 1])) {
            p := p - 1;
            pos := p;
            return Emit(buffer, p);
          }
          buffer := buffer + [c0];
        }
      }
    }

    /** `list(Tokenizer(filename))`: calls `next` until StopIteration. */
    method ReadAll() returns (tokens: seq<string>)
      requires Valid()
      modifies this
      ensures Valid() && text == old(text) && pos == |text|
      ensures tokens == Tokens(text, old(pos))
    {
      tokens := [];
      while true
        invariant Valid() && text == old(text)
        invariant tokens + Tokens(text, pos) == Tokens(text, old(pos))
        decreases |text| - pos
      {
        var start := pos;
        var r := Next();
        if r.Stop? {
          return;
        }
        tokens := tokens + [r.token];
        assert Tokens(text, start) == [r.token] + Tokens(text, pos);
      }
    }
  }

  /** Every token of a whole stream obeys the shape of `NextTokenShape`. */
  lemma {:induction false} TokensShape(text: seq<char>, p: nat)
    requires p <= |text|
    ensures forall i :: 0 <= i < |Tokens(text, p)| ==> Tokens(text, p)[i] != [] && NoSpace(Tokens(text, p)[i])
    decreases |text| - p
  {
    NextTokenShape(text, p);
    match NextToken(text, p)
    case Stop =>
    case Emit(t, q) =>
      TokensShape(text, q);
  }
}
