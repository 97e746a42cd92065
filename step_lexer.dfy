/** The token layer of the STEP reader (IfcParse.cpp): the token encoding
    (`TokenPtr`, `TokenFunc`), `Tokens::Next`, `Tokens::TokenString` and the
    token-to-value conversions. A token is an unsigned number: 0 is the null
    token, a value below 128 is a one-character operator token, and any
    other value is a file position plus 128. */
module StepLexer {
  import opened Wrappers
  import opened StepFile

  type Token = nat

  /** `unsigned int` arithmetic wraps modulo 2^32. */
  const U32: nat := 0x1_0000_0000

  /** `TokenPtr(offset)`. */
  function TokenAt(o: nat): Token { o + 128 }

  /** `TokenPtr(c)`: the character code. */
  function TokenOf(c: char): Token { c as nat }

  /** `TokenPtr()`. */
  const NullToken: Token := 0

  /** `TokenFunc::Offset`: `t - 128` in unsigned arithmetic. */
  function Offset(t: Token): nat
  {
    if t >= 128 then t - 128 else t + U32 - 128
  }

  /** `TokenFunc::isOperator(t, op)`; `op == '\0'` is the default argument,
      which accepts any operator. */
  predicate IsOperator(t: Token, op: char)
  {
    t < 128 && (op == '\0' || op as nat == t)
  }

  /** The characters that always form a token of their own. */
  predicate IsSingle(c: char)
  {
    c == '(' || c == ')' || c == '=' || c == ',' || c == ';' || c == '$' || c == '*'
  }

  /** The characters that end a longer token. */
  predicate IsDelimiter(c: char)
  {
    c == '(' || c == ')' || c == '=' || c == ',' || c == ';'
  }

  predicate IsSpace(c: char)
  {
    c == ' ' || c == '\r' || c == '\n' || c == '\t'
  }

  /** Position tokens and operator tokens are told apart, and `Offset`
      inverts `TokenPtr`. */
  lemma TokenEncoding(o: nat, c: char, op: char)
    requires IsSingle(c)
    ensures Offset(TokenAt(o)) == o && !IsOperator(TokenAt(o), op)
    ensures IsOperator(TokenOf(c), op) <==> op == '\0' || op == c
    ensures TokenOf(c) != NullToken && TokenOf(c) != TokenAt(o)
    ensures IsOperator(NullToken, op) <==> op == '\0'
  {
  }

  // ---- Tokens::Next -----------------------------------------------------------

  /** The first position at or after `p` that is not whitespace, or the end. */
  function SkipSpace(s: seq<char>, p: nat): (q: nat)
    ensures p <= q && (q < |s| ==> !IsSpace(s[q]))
    ensures q >= |s| ==> q == p || q == |s|
    ensures forall k :: p <= k < q && k < |s| ==> IsSpace(s[k])
    decreases |s| - p
  {
    if p < |s| && IsSpace(s[p]) then SkipSpace(s, p + 1) else p
  }

  /** The string and comment flags after reading `c` with `prev` before it:
      `*` `/` closes a comment, `/` `*` outside a string opens one, and a
      quote outside a comment toggles the string flag. */
  function Toggle(inString: bool, inComment: bool, prev: char, c: char): (bool, bool)
  {
    if inComment && prev == '*' && c == '/' then (inString, false)
    else if !inString && !inComment && prev == '/' && c == '*' then (inString, true)
    else if !inComment && c == '\'' then (!inString, inComment)
    else (inString, inComment)
  }

  /** The scanning loop of `Next` from position `q`: the position where it
      stops and the count of characters it kept. It stops at the end of the
      file or before a delimiter met outside a string or inside a comment,
      once something was kept; whitespace outside strings and comments is
      skipped. */
  function Scan(s: seq<char>, q: nat, len: nat, inString: bool, inComment: bool, prev: char): (r: (nat, nat))
    ensures q <= r.0 && len <= r.1
    ensures r.0 >= |s| ==> r.0 == q || r.0 == |s|
    ensures r.0 < |s| ==> IsDelimiter(s[r.0]) && r.1 > 0
    decreases |s| - q
  {
    if q >= |s| then (q, len)
    else
      var c := s[q];
      if len > 0 && (!inString || inComment) && IsDelimiter(c) then (q, len)
      else if !inComment && !inString && IsSpace(c) then Scan(s, q + 1, len, inString, inComment, prev)
      else
        var flags := Toggle(inString, inComment, prev, c);
        Scan(s, q + 1, len + 1, flags.0, flags.1, c)
  }
  /** One character of the scanning loop. */
  lemma ScanStep(s: seq<char>, q: nat, len: nat, inString: bool, inComment: bool, prev: char)
    requires q < |s|
    ensures var c := s[q];
      Scan(s, q, len, inString, inComment, prev) ==
        if len > 0 && (!inString || inComment) && IsDelimiter(c) then (q, len)
        else if !inComment && !inString && IsSpace(c) then Scan(s, q + 1, len, inString, inComment, prev)
        else Scan(s, q + 1, len + 1, Toggle(inString, inComment, prev, c).0, Toggle(inString, inComment, prev, c).1, c)
  {
  }


  /** `Tokens::Next` from cursor position `p`: the token and the new cursor
      position. */
  function NextToken(s: seq<char>, p: nat): (r: (Token, nat))
  {
    if p >= |s| then (NullToken, p)
    else
      var q := SkipSpace(s, p);
      if q >= |s| then (NullToken, q)
      else if IsSingle(s[q]) then (TokenOf(s[q]), q + 1)
      else
        var scan := Scan(s, q, 0, false, false, '\0');
        var stop: nat := scan.0;
        (if scan.1 > 0 then TokenAt(q) else NullToken, stop)
  }

  /** The null token comes only at the end of the input (possibly after
      whitespace) and leaves the cursor at most at the end; any other token
      moves the cursor on. An operator token is the first non-blank
      character; a position token starts there and ends before a delimiter
      or at the end. */
  lemma NextShape(s: seq<char>, p: nat)
    requires p <= |s|
    ensures var (t, p') := NextToken(s, p);
      p <= p' <= |s| &&
      (t == NullToken <==> SkipSpace(s, p) >= |s|) &&
      (t == NullToken ==> p' == |s|) &&
      (t != NullToken ==> p < p') &&
      (t != NullToken && t < 128 ==> IsSingle(s[SkipSpace(s, p)]) && t == TokenOf(s[SkipSpace(s, p)]) && p' == SkipSpace(s, p) + 1) &&
      (t >= 128 ==> (t == TokenAt(SkipSpace(s, p)) && !IsSingle(s[SkipSpace(s, p)]) &&
        (p' == |s| || IsDelimiter(s[p']))))
  {
    var q := SkipSpace(s, p);
    if q < |s| && !IsSingle(s[q]) {
      ScanKeepsFirst(s, q);
    }
  }

  /** The scan from a character that is not blank keeps that character, so
      the null token after it is dead code. */
  lemma ScanKeepsFirst(s: seq<char>, q: nat)
    requires q < |s| && !IsSpace(s[q])
    ensures Scan(s, q, 0, false, false, '\0').1 > 0
  {
    var flags := Toggle(false, false, '\0', s[q]);
    assert Scan(s, q, 0, false, false, '\0') == Scan(s, q + 1, 1, flags.0, flags.1, s[q]);
  }

  // ---- Tokens::TokenString ------------------------------------------------------

  /** The text-collecting loop of `TokenString`: the same walk as `Scan`,
      except that it stops on what it has collected, and collects every
      character read outside a comment (the slash and star that open one included). */
  function Text(s: seq<char>, q: nat, buf: seq<char>, inString: bool, inComment: bool, prev: char): (r: seq<char>)
    ensures |buf| <= |r| && r[..|buf|] == buf
    decreases |s| - q
  {
    if q >= |s| then buf
    else
      var c := s[q];
      if |buf| > 0 && (!inString || inComment) && IsDelimiter(c) then buf
      else if !inComment && !inString && IsSpace(c) then Text(s, q + 1, buf, inString, inComment, prev)
      else
        var flags := Toggle(inString, inComment, prev, c);
        Text(s, q + 1, if !inComment then buf + [c] else buf, flags.0, flags.1, c)
  }
  /** One character of `TokenString`'s loop: the text stops before a
      delimiter once something is buffered, skips blanks outside strings
      and comments, and otherwise goes on with the character noted. */
  lemma TextStep(s: seq<char>, q: nat, buf: seq<char>, inString: bool, inComment: bool, prev: char)
    requires q < |s|
    ensures var c := s[q];
      Text(s, q, buf, inString, inComment, prev) ==
        if |buf| > 0 && (!inString || inComment) && IsDelimiter(c) then buf
        else if !inComment && !inString && IsSpace(c) then Text(s, q + 1, buf, inString, inComment, prev)
        else Text(s, q + 1, if !inComment then buf + [c] else buf, Toggle(inString, inComment, prev, c).0, Toggle(inString, inComment, prev, c).1, c)
  {
  }


  /** `TokenString(o)`. */
  function TokenText(s: seq<char>, o: nat): seq<char>
  {
    Text(s, o, [], false, false, '\0')
  }

  /** The text of a token starts with the character the token points at,
      which is what `startsWith` inspects. */
  lemma TokenTextStart(s: seq<char>, o: nat)
    requires o < |s| && !IsSpace(s[o])
    ensures |TokenText(s, o)| > 0 && TokenText(s, o)[0] == s[o]
  {
    var flags := Toggle(false, false, '\0', s[o]);
    assert [] + [s[o]] == [s[o]];
    assert TokenText(s, o) == Text(s, o + 1, [s[o]], flags.0, flags.1, s[o]);
  }

  // ---- the token reader over a file -------------------------------------------

  /** `Tokens`: reads tokens from a file. */
  class Tokens {
    const file: File

    constructor (f: File)
      ensures file == f
    {
      file := f;
    }

    /** `Tokens::Next`. */
    method Next() returns (t: Token)
      requires file.Valid()
      modifies file
      ensures file.Valid() && (t, file.Tell()) == NextToken(file.content, old(file.Tell()))
    {
      if file.eof {
        return NullToken;
      }
      var c := SkipBlanks();
      if file.eof {
        return NullToken;
      }
      var pos := file.Tell();
      if IsSingle(c) {
        file.Inc();
        return TokenOf(c);
      }
      var len := ScanRest();
      if len > 0 {
        return TokenAt(pos);
      }
      return NullToken;
    }

    /** The whitespace-trimming loop of `Next`; `c` is the last character
        looked at. */
    method SkipBlanks() returns (c: char)
      requires file.Valid() && !file.eof
      modifies file
      ensures file.Valid() && file.Tell() == SkipSpace(file.content, old(file.Tell()))
      ensures file.eof <==> file.Tell() >= |file.content|
      ensures !file.eof ==> c == file.content[file.Tell()]
    {
      ghost var s := file.content;
      ghost var p0 := file.Tell();
      c := '\0';
      while !file.eof
        invariant file.Valid() && p0 <= file.Tell() && (file.eof <==> file.Tell() >= |s|)
        invariant SkipSpace(s, p0) == SkipSpace(s, file.Tell())
        invariant file.Tell() <= |s|
        decreases |s| - file.Tell()
      {
        c := file.Peek();
        if IsSpace(c) {
          file.Inc();
        } else {
          break;
        }
      }
    }

    /** The scanning loop of `Next`: the cursor ends where `Scan` stops and
        `len` is what it counted. */
    method ScanRest() returns (len: nat)
      requires file.Valid() && !file.eof
      modifies file
      ensures file.Valid() && (file.Tell(), len) == Scan(file.content, old(file.Tell()), 0, false, false, '\0')
    {
      ghost var s := file.content;
      ghost var pos := file.Tell();
      len := 0;
      var inString, inComment := false, false;
      var prev := '\0';
      while !file.eof
        invariant file.Valid() && (file.eof <==> file.Tell() >= |s|)
        invariant !file.eof ==> file.Tell() < |s|
        invariant Scan(s, pos, 0, false, false, '\0') == Scan(s, file.Tell(), len, inString, inComment, prev)
        invariant file.eof ==> Scan(s, file.Tell(), len, inString, inComment, prev) == (file.Tell(), len)
        decreases |s| - file.Tell()
      {
        var stop;
        stop, len, inString, inComment, prev := ScanChar(len, inString, inComment, prev);
        if stop {
          break;
        }
      }
    }

    /** One round of the scanning loop: stop before a delimiter once
        something was counted, else consume the character. */
    method ScanChar(len: nat, inString: bool, inComment: bool, prev: char)
      returns (stop: bool, len': nat, inString': bool, inComment': bool, prev': char)
      requires file.Valid() && !file.eof
      modifies file
      ensures file.Valid()
      ensures stop ==> (file.Tell() == old(file.Tell()) && !file.eof &&
        Scan(file.content, file.Tell(), len, inString, inComment, prev) == (file.Tell(), len) &&
        len' == len && inString' == inString && inComment' == inComment && prev' == prev)
      ensures !stop ==> (file.Tell() == old(file.Tell()) + 1 && (file.eof <==> file.Tell() >= |file.content|) &&
        Scan(file.content, old(file.Tell()), len, inString, inComment, prev) == Scan(file.content, file.Tell(), len', inString', inComment', prev'))
      ensures !stop && file.eof ==> Scan(file.content, file.Tell(), len', inString', inComment', prev') == (file.Tell(), len')
    {
      var ch := file.Peek();
      ScanStep(file.content, file.Tell(), len, inString, inComment, prev);
      stop, len', inString', inComment', prev' := false, len, inString, inComment, prev;
      if len > 0 && (!inString || inComment) && IsDelimiter(ch) {
        stop := true;
        return;
      }
      file.Inc();
      if !inComment && !inString && IsSpace(ch) {
        return;
      }
      len' := len + 1;
      var flags := Toggle(inString, inComment, prev, ch);
      inString', inComment' := flags.0, flags.1;
      prev' := ch;
    }

    /** `Tokens::TokenString(o)`: the text at `o`; the cursor is put back
        where it was. */
    method TokenString(o: nat) returns (text: seq<char>)
      requires file.Valid()
      modifies file
      ensures file.Valid() && file.Tell() == old(file.Tell())
      ensures text == TokenText(file.content, o)
    {
      var oldOffset := file.Tell();
      file.Seek(o);
      text := ReadText();
      file.Seek(oldOffset);
    }

    /** The reading loop of `TokenString`, from the cursor on. */
    method ReadText() returns (buffer: seq<char>)
      requires file.Valid()
      modifies file
      ensures file.Valid() && buffer == TokenText(file.content, old(file.Tell()))
    {
      ghost var s := file.content;
      ghost var pos := file.Tell();
      var inString, inComment := false, false;
      buffer := [];
      var prev := '\0';
      while !file.eof
        invariant file.Valid() && (file.eof <==> file.Tell() >= |s|)
        invariant !file.eof ==> file.Tell() < |s|
        invariant TokenText(s, pos) == Text(s, file.Tell(), buffer, inString, inComment, prev)
        invariant file.eof ==> Text(s, file.Tell(), buffer, inString, inComment, prev) == buffer
        decreases |s| - file.Tell()
      {
        var stop;
        stop, buffer, inString, inComment, prev := TextChar(buffer, inString, inComment, prev);
        if stop {
          break;
        }
      }
    }

    /** One round of the reading loop: stop before a delimiter once
        something was buffered, else consume the character. */
    method TextChar(buffer: seq<char>, inString: bool, inComment: bool, prev: char)
      returns (stop: bool, buffer': seq<char>, inString': bool, inComment': bool, prev': char)
      requires file.Valid() && !file.eof
      modifies file
      ensures file.Valid()
      ensures stop ==> (file.Tell() == old(file.Tell()) && !file.eof &&
        Text(file.content, file.Tell(), buffer, inString, inComment, prev) == buffer &&
        buffer' == buffer && inString' == inString && inComment' == inComment && prev' == prev)
      ensures !stop ==> (file.Tell() == old(file.Tell()) + 1 && (file.eof <==> file.Tell() >= |file.content|) &&
        Text(file.content, old(file.Tell()), buffer, inString, inComment, prev) == Text(file.content, file.Tell(), buffer', inString', inComment', prev'))
      ensures !stop && file.eof ==> Text(file.content, file.Tell(), buffer', inString', inComment', prev') == buffer'
    {
      var ch := file.Peek();
      TextStep(file.content, file.Tell(), buffer, inString, inComment, prev);
      stop, buffer', inString', inComment', prev' := false, buffer, inString, inComment, prev;
      if |buffer| > 0 && (!inString || inComment) && IsDelimiter(ch) {
        stop := true;
        return;
      }
      file.Inc();
      if !inComment && !inString && IsSpace(ch) {
        return;
      }
      if !inComment {
        buffer' := buffer + [ch];
      }
      var flags := Toggle(inString, inComment, prev, ch);
      inString', inComment' := flags.0, flags.1;
      prev' := ch;
    }
  }

  // ---- TokenFunc -----------------------------------------------------------------

  /** `startsWith(t, c)`: `Read` past the end yields the end-of-file value,
      which equals no character. */
  predicate StartsWith(s: seq<char>, t: Token, c: char)
  {
    Offset(t) < |s| && s[Offset(t)] == c
  }

  predicate IsIdentifier(s: seq<char>, t: Token) { !IsOperator(t, '\0') && StartsWith(s, t, '#') }
  predicate IsString(s: seq<char>, t: Token) { !IsOperator(t, '\0') && StartsWith(s, t, '\'') }
  predicate IsEnumeration(s: seq<char>, t: Token) { !IsOperator(t, '\0') && StartsWith(s, t, '.') }
  predicate IsDatatype(s: seq<char>, t: Token) { !IsOperator(t, '\0') && StartsWith(s, t, 'I') }

  /** `str.substr(1, str.size() - 2)` with unsigned `size() - 2`. */
  function Inner(str: seq<char>): (r: seq<char>)
    ensures |str| >= 2 ==> str == [str[0]] + r + [str[|str| - 1]]
    ensures |str| < 2 ==> r == []
  {
    if |str| >= 2 then str[1..|str| - 1] else []
  }

  /** `asString`: `$` is the empty string, any other operator is an error,
      and strings and enumerations lose their delimiters. */
  function AsString(s: seq<char>, t: Token): (r: Result<seq<char>>)
  {
    if IsOperator(t, '$') then Success("")
    else if IsOperator(t, '\0') then Failure("Token is not a string")
    else
      var str := TokenText(s, Offset(t));
      Success(if IsString(s, t) || IsEnumeration(s, t) then Inner(str) else str)
  }

  /** The outcome of `asString` by token kind. */
  lemma AsStringCases(s: seq<char>, t: Token)
    ensures AsString(s, t).Failure? <==> t < 128 && t != '$' as nat
    ensures t == '$' as nat ==> AsString(s, t) == Success("")
    ensures t >= 128 && Offset(t) < |s| && (s[Offset(t)] == '\'' || s[Offset(t)] == '.') ==>
      AsString(s, t) == Success(Inner(TokenText(s, Offset(t))))
    ensures t >= 128 && !(IsString(s, t) || IsEnumeration(s, t)) ==> AsString(s, t) == Success(TokenText(s, t - 128))
  {
  }

  predicate IsDigit(c: char) { '0' <= c <= '9' }

  /** The value of the leading digits of `str`, accumulated onto `acc`. */
  function Digits(str: seq<char>, acc: int): int
    decreases |str|
  {
    if |str| > 0 && IsDigit(str[0]) then Digits(str[1..], 10 * acc + (str[0] as int - '0' as int)) else acc
  }

  /** C `atoi`: leading white space, an optional sign, then digits; 0 when
      there are none. */
  function Atoi(str: seq<char>): int
    decreases |str|
  {
    if |str| > 0 && (str[0] == ' ' || str[0] == '\t' || str[0] == '\n' || str[0] == '\r' || str[0] == '\U{000B}' || str[0] == '\U{000C}') then Atoi(str[1..])
    else if |str| > 0 && str[0] == '-' then -Digits(str[1..], 0)
    else if |str| > 0 && str[0] == '+' then Digits(str[1..], 0)
    else Digits(str, 0)
  }

  /** `asInt`: only an identifier token converts; the number follows `#`. */
  function AsInt(s: seq<char>, t: Token): (r: Result<int>)
  {
    if !IsIdentifier(s, t) then Failure("Token is not an identifier")
    else
      var str := TokenText(s, Offset(t));
      Success(Atoi(if |str| > 0 then str[1..] else str))
  }

  /** `asBool`: true exactly for the text `T`. */
  function AsBool(s: seq<char>, t: Token): (r: Result<bool>)
  {
    match AsString(s, t)
    case Failure(e) => Failure(e)
    case Success(str) => Success(str == "T")
  }

  /** `TokenFunc::toString`: an operator token is its character. */
  function ToString(s: seq<char>, t: Token): (r: Result<seq<char>>)
  {
    if IsOperator(t, '\0') then Success([t as char]) else AsString(s, t)
  }

  /** Each conversion fails exactly on the tokens the source rejects:
      `asInt` on anything but an identifier, `asBool` and `toString` only
      where `asString` does (and `toString` never on an operator). */
  lemma ConversionErrors(s: seq<char>, t: Token)
    ensures AsInt(s, t).Failure? <==> !IsIdentifier(s, t)
    ensures AsBool(s, t).Failure? <==> AsString(s, t).Failure?
    ensures AsBool(s, t).Success? ==> (AsBool(s, t).value <==> AsString(s, t).value == "T")
    ensures ToString(s, t).Success?
    ensures IsOperator(t, '\0') ==> ToString(s, t) == Success([t as char])
  {
  }

  /** The identifier `#12` followed by `=` reads as 12. */
  lemma IdentifierExample()
    ensures AsInt("#12=", TokenAt(0)) == Success(12)
  {
    var s := "#12=";
    assert TokenText(s, 0) == "#12" by {
      assert Text(s, 3, "#12", false, false, '2') == "#12";
      assert Text(s, 2, "#1", false, false, '1') == "#12";
      assert Text(s, 1, "#", false, false, '#') == "#12";
    }
    assert "#12"[1..] == "12";
    assert Digits("12", 0) == 12 by {
      assert "12"[1..] == "2" && "2"[1..] == [];
    }
  }
}
