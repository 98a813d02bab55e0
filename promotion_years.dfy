/** The promotion-year field: a free-text, comma-separated list of years, split on commas,
    each piece stripped of surrounding whitespace, and the pieces that are non-empty digit
    strings kept as integers, in input order and with duplicates. */
module PromotionYears {
  import opened Decimal

  /** The model's alphabet: 7-bit ASCII text. */
  predicate IsAscii(s: string) { forall i :: 0 <= i < |s| ==> s[i] as int < 128 }

  /** `c.isspace()` for an ASCII character: tab, line feed, vertical tab, form feed,
      carriage return, the four information separators 0x1C-0x1F, and space. */
  predicate IsSpace(c: char) {
    9 <= c as int <= 13 || 28 <= c as int <= 31 || c == ' '
  }

  // ---------------------------------------------------------------------------
  // str.split(sep)

  /** `s.split(sep)`: the pieces between separators; always at least one piece. */
  function Split(s: string, sep: char): (parts: seq<string>)
    ensures |parts| >= 1
    ensures forall i :: 0 <= i < |parts| ==> sep !in parts[i]
  {
    if s == [] then [[]]
    else
      var rest := Split(s[1..], sep);
      if s[0] == sep then [[]] + rest
      else [[s[0]] + rest[0]] + rest[1..]
  }

  /** `sep.join(parts)`, the inverse of `Split`. */
  function Join(parts: seq<string>, sep: char): string
    requires |parts| >= 1
  {
    if |parts| == 1 then parts[0] else parts[0] + [sep] + Join(parts[1..], sep)
  }

  /** Joining the pieces of a split gives back the text. */
  lemma {:induction false} JoinSplit(s: string, sep: char)
    ensures Join(Split(s, sep), sep) == s
  {
    if s != [] {
      var rest := Split(s[1..], sep);
      JoinSplit(s[1..], sep);
      if s[0] == sep {
        assert Split(s, sep)[1..] == rest;
      } else if |rest| == 1 {
        assert Split(s, sep) == [[s[0]] + rest[0]];
      } else {
        assert Split(s, sep)[1..] == rest[1..];
        assert Join(rest, sep) == rest[0] + [sep] + Join(rest[1..], sep);
      }
    }
  }

  /** Splitting text that starts with a separator-free piece. */
  lemma {:induction false} SplitAfterPiece(u: string, v: string, sep: char)
    requires sep !in u
    ensures Split(u + v, sep) == [u + Split(v, sep)[0]] + Split(v, sep)[1..]
  {
    if u != [] {
      assert (u + v)[1..] == u[1..] + v;
      SplitAfterPiece(u[1..], v, sep);
      assert [u[0]] + (u[1..] + Split(v, sep)[0]) == u + Split(v, sep)[0];
    } else {
      var sv := Split(v, sep);
      assert u + v == v && u + sv[0] == sv[0];
      assert sv == [sv[0]] + sv[1..];
    }
  }

  /** Splitting a join of separator-free pieces gives back the pieces. */
  lemma {:induction false} SplitJoin(parts: seq<string>, sep: char)
    requires |parts| >= 1
    requires forall i :: 0 <= i < |parts| ==> sep !in parts[i]
    ensures Split(Join(parts, sep), sep) == parts
  {
    if |parts| == 1 {
      SplitAfterPiece(parts[0], [], sep);
      assert parts[0] + [] == parts[0];
    } else {
      var tail := Join(parts[1..], sep);
      SplitJoin(parts[1..], sep);
      assert Join(parts, sep) == parts[0] + ([sep] + tail);
      assert ([sep] + tail)[1..] == tail;
      assert Split([sep] + tail, sep) == [[]] + parts[1..];
      SplitAfterPiece(parts[0], [sep] + tail, sep);
      assert parts[0] + [] == parts[0];
      assert parts == [parts[0]] + parts[1..];
    }
  }

  // ---------------------------------------------------------------------------
  // str.strip()

  /** The number of whitespace characters at the start of `s`. */
  function LeadingSpaces(s: string): (n: nat)
    ensures n <= |s|
    ensures forall k :: 0 <= k < n ==> IsSpace(s[k])
    ensures n < |s| ==> !IsSpace(s[n])
  {
    if s != [] && IsSpace(s[0]) then 1 + LeadingSpaces(s[1..]) else 0
  }

  /** The number of whitespace characters at the end of `s`. */
  function TrailingSpaces(s: string): (n: nat)
    ensures n <= |s|
    ensures forall k :: |s| - n <= k < |s| ==> IsSpace(s[k])
    ensures n < |s| ==> !IsSpace(s[|s| - 1 - n])
  {
    if s != [] && IsSpace(s[|s| - 1]) then 1 + TrailingSpaces(s[..|s| - 1]) else 0
  }

  /** `s.strip()`: the longest middle part of `s` that neither starts nor ends with
      whitespace; everything outside it is whitespace. */
  function Strip(s: string): (t: string)
    ensures t == [] || (!IsSpace(t[0]) && !IsSpace(t[|t| - 1]))
    ensures LeadingSpaces(s) + |t| <= |s|
    ensures t == s[LeadingSpaces(s)..LeadingSpaces(s) + |t|]
    ensures forall k :: 0 <= k < |s| && !(LeadingSpaces(s) <= k < LeadingSpaces(s) + |t|) ==> IsSpace(s[k])
  {
    var rest := s[LeadingSpaces(s)..];
    rest[..|rest| - TrailingSpaces(rest)]
  }

  /** Text with no whitespace at either end is left as it is. */
  lemma StripUnpadded(s: string)
    requires s == [] || (!IsSpace(s[0]) && !IsSpace(s[|s| - 1]))
    ensures Strip(s) == s
  {
    if s != [] {
      assert LeadingSpaces(s) == 0;
    }
  }

  /** Stripping twice is stripping once. */
  lemma StripIdempotent(s: string)
    ensures Strip(Strip(s)) == Strip(s)
  {
    StripUnpadded(Strip(s));
  }

  // ---------------------------------------------------------------------------
  // The promotion-year comprehension

  /** Whether a piece survives the filter `y.strip().isdigit()`. */
  predicate IsYearToken(token: string) { IsDigits(Strip(token)) }

  /** The piece, once stripped, is a digit string whose value is `v`. */
  predicate SpellsYear(token: string, v: nat) { IsYearToken(token) && Value(Strip(token)) == v }

  /** What one piece contributes to the comprehension: `[int(y.strip())]` when
      `y.strip().isdigit()`, nothing otherwise. */
  function TokenYears(token: string): (years: seq<nat>)
    ensures |years| <= 1
  {
    var t := Strip(token);
    if IsDigits(t) then [Value(t)] else []
  }

  /** `[int(y.strip()) for y in tokens if y.strip().isdigit()]`. */
  function ParseTokens(tokens: seq<string>): (years: seq<nat>)
    ensures |years| <= |tokens|
  {
    if tokens == [] then [] else TokenYears(tokens[0]) + ParseTokens(tokens[1..])
  }

  /** CPython's default `sys.int_info.default_max_str_digits`: `int()` raises `ValueError`
      on a decimal string with more digits than this. */
  const MaxStrDigits: nat := 4300

  /** A piece that passes the `y.strip().isdigit()` filter but whose digits `int()`
      refuses because there are too many of them. */
  predicate Overlong(token: string) { IsYearToken(token) && |Strip(token)| > MaxStrDigits }

  /** Some piece makes `int()` raise inside the comprehension. */
  predicate HasOverlong(tokens: seq<string>) { exists t :: t in tokens && Overlong(t) }

  /** The promotion-year list parsed from the text field. When some digit piece is too
      long for `int()`, the comprehension raises and the bare `except` leaves the list
      empty. Otherwise a year is listed exactly when some comma-separated piece, once
      stripped, is a digit string with that value. */
  function ParsePromotionYears(text: string): (years: seq<nat>)
    requires IsAscii(text)
    ensures HasOverlong(Split(text, ',')) ==> years == []
    ensures !HasOverlong(Split(text, ',')) ==>
      forall v :: v in years <==> exists piece :: piece in Split(text, ',') && SpellsYear(piece, v)
  {
    var pieces := Split(text, ',');
    if HasOverlong(pieces) then []
    else
      ParseTokensMembers(pieces);
      ParseTokens(pieces)
  }

  /** The comprehension keeps input order: the result for a concatenation of pieces is
      the concatenation of the results. */
  lemma {:induction false} ParseTokensAppend(xs: seq<string>, ys: seq<string>)
    ensures ParseTokens(xs + ys) == ParseTokens(xs) + ParseTokens(ys)
  {
    if xs != [] {
      assert (xs + ys)[1..] == xs[1..] + ys;
      ParseTokensAppend(xs[1..], ys);
    } else {
      assert xs + ys == ys;
    }
  }

  /** A single piece contributes its value if it is a digit string after stripping,
      and nothing otherwise (an empty piece, "x", "-3", "1.5", ...). */
  lemma ParseOneToken(token: string)
    ensures IsYearToken(token) ==> ParseTokens([token]) == [Value(Strip(token))]
    ensures !IsYearToken(token) ==> ParseTokens([token]) == []
  {
    assert [token][1..] == [];
  }

  /** A value is in the result exactly when some piece, once stripped, is a digit
      string with that value. */
  lemma {:induction false} ParseTokensMember(tokens: seq<string>, v: nat)
    ensures v in ParseTokens(tokens) <==> exists i :: 0 <= i < |tokens| && SpellsYear(tokens[i], v)
  {
    if tokens != [] {
      var head, tail := tokens[0], tokens[1..];
      ParseTokensMember(tail, v);
      assert ParseTokens(tokens) == TokenYears(head) + ParseTokens(tail);
      assert v in TokenYears(head) <==> SpellsYear(head, v);
      if v in ParseTokens(tail) {
        var i :| 0 <= i < |tail| && SpellsYear(tail[i], v);
        assert tokens[i + 1] == tail[i];
      }
      if exists i :: 0 <= i < |tokens| && SpellsYear(tokens[i], v) {
        var i :| 0 <= i < |tokens| && SpellsYear(tokens[i], v);
        if i > 0 {
          assert tail[i - 1] == tokens[i];
        }
      }
    }
  }

  lemma ParseTokensMembers(tokens: seq<string>)
    ensures forall v :: v in ParseTokens(tokens) <==> exists t :: t in tokens && SpellsYear(t, v)
  {
    forall v | true
      ensures v in ParseTokens(tokens) <==> exists t :: t in tokens && SpellsYear(t, v)
    {
      ParseTokensMember(tokens, v);
    }
  }

  /** Text without a comma is one piece: it yields nothing when that piece is too long for
      `int()`, and otherwise what the filter and conversion make of it. */
  lemma ParseSinglePiece(x: string)
    requires IsAscii(x) && ',' !in x
    ensures ParsePromotionYears(x) == if Overlong(x) then [] else TokenYears(x)
  {
    SplitJoin([x], ',');
    assert Split(x, ',') == [x];
    assert HasOverlong([x]) <==> Overlong(x) by {
      if HasOverlong([x]) {
        var t :| t in [x] && Overlong(t);
      }
    }
    assert ParseTokens([x]) == TokenYears(x) + ParseTokens([]) by { assert [x][1..] == []; }
  }

  /** A comma in the text separates the years of the pieces on either side, in order;
      a piece too long for `int()` on either side empties the whole list. */
  lemma ParseAcrossComma(x: string, y: string)
    requires IsAscii(x) && IsAscii(y)
    ensures IsAscii(x + "," + y)
    ensures HasOverlong(Split(x + "," + y, ',')) <==> HasOverlong(Split(x, ',')) || HasOverlong(Split(y, ','))
    ensures ParsePromotionYears(x + "," + y) ==
      if HasOverlong(Split(x, ',')) || HasOverlong(Split(y, ',')) then []
      else ParsePromotionYears(x) + ParsePromotionYears(y)
  {
    AsciiAppend(x, ",");
    AsciiAppend(x + ",", y);
    var px, py := Split(x, ','), Split(y, ',');
    JoinSplit(x, ',');
    JoinSplit(y, ',');
    JoinAppend(px, py, ',');
    assert Join(px + py, ',') == x + "," + y;
    assert forall i :: 0 <= i < |px + py| ==> ',' !in (px + py)[i] by {
      forall i | 0 <= i < |px + py| ensures ',' !in (px + py)[i] {
        if i < |px| { assert (px + py)[i] == px[i]; } else { assert (px + py)[i] == py[i - |px|]; }
      }
    }
    SplitJoin(px + py, ',');
    OverlongAppend(px, py);
    ParseTokensAppend(px, py);
  }

  /** A concatenation of pieces holds a piece too long for `int()` exactly when one of
      its parts does. */
  lemma OverlongAppend(xs: seq<string>, ys: seq<string>)
    ensures HasOverlong(xs + ys) <==> HasOverlong(xs) || HasOverlong(ys)
  {
    if HasOverlong(xs + ys) {
      var t :| t in xs + ys && Overlong(t);
      assert t in xs || t in ys;
    }
    if HasOverlong(xs) {
      var t :| t in xs && Overlong(t);
      assert t in xs + ys;
    }
    if HasOverlong(ys) {
      var t :| t in ys && Overlong(t);
      assert t in xs + ys;
    }
  }

  lemma AsciiAppend(s: string, t: string)
    requires IsAscii(s) && IsAscii(t)
    ensures IsAscii(s + t)
  {
    forall i | 0 <= i < |s + t| ensures (s + t)[i] as int < 128 {
      if i >= |s| { assert (s + t)[i] == t[i - |s|]; }
    }
  }

  /** Joining two lists of pieces puts one separator between them. */
  lemma {:induction false} JoinAppend(xs: seq<string>, ys: seq<string>, sep: char)
    requires |xs| >= 1 && |ys| >= 1
    ensures Join(xs + ys, sep) == Join(xs, sep) + [sep] + Join(ys, sep)
  {
    if |xs| == 1 {
      assert (xs + ys)[1..] == ys;
    } else {
      assert (xs + ys)[1..] == xs[1..] + ys;
      JoinAppend(xs[1..], ys, sep);
    }
  }

  // ---------------------------------------------------------------------------
  // Round trip with the comma-separated rendering of a list of years

  /** The decimal rendering of each year. */
  function ShowAll(years: seq<nat>): (pieces: seq<string>)
    ensures |pieces| == |years|
    ensures forall i :: 0 <= i < |years| ==> pieces[i] == Show(years[i])
  {
    if years == [] then [] else [Show(years[0])] + ShowAll(years[1..])
  }

  /** The years written out in decimal, separated by commas. */
  function RenderYears(years: seq<nat>): string
  {
    if years == [] then "" else Join(ShowAll(years), ',')
  }

  lemma {:induction false} JoinAscii(parts: seq<string>, sep: char)
    requires |parts| >= 1 && sep as int < 128
    requires forall i :: 0 <= i < |parts| ==> IsAscii(parts[i])
    ensures IsAscii(Join(parts, sep))
  {
    if |parts| > 1 {
      JoinAscii(parts[1..], sep);
    }
  }

  lemma {:induction false} ParseShown(years: seq<nat>)
    ensures ParseTokens(ShowAll(years)) == years
  {
    if years != [] {
      var s := Show(years[0]);
      StripUnpadded(s);
      ValueOfShow(years[0]);
      assert ShowAll(years)[1..] == ShowAll(years[1..]);
      ParseShown(years[1..]);
    }
  }

  /** A year whose decimal rendering `int()` accepts back. */
  predicate WithinDigitLimit(y: nat) { |Show(y)| <= MaxStrDigits }

  /** A rendered piece too long for `int()` comes from a year beyond the digit limit. */
  lemma OverlongShownYear(years: seq<nat>) returns (i: nat)
    requires HasOverlong(ShowAll(years))
    ensures i < |years| && !WithinDigitLimit(years[i])
  {
    var pieces := ShowAll(years);
    var t :| t in pieces && Overlong(t);
    i :| 0 <= i < |pieces| && pieces[i] == t;
    StripUnpadded(t);
  }

  /** A year beyond the digit limit renders as a piece too long for `int()`. */
  lemma YearShownOverlong(years: seq<nat>, i: nat)
    requires i < |years| && !WithinDigitLimit(years[i])
    ensures HasOverlong(ShowAll(years))
  {
    var pieces := ShowAll(years);
    StripUnpadded(pieces[i]);
    assert pieces[i] in pieces && Overlong(pieces[i]);
  }

  /** Writing a list of years with commas and parsing it gives back the same list,
      duplicates and order included, as long as every year is within `int()`'s digit
      limit; a single year beyond it makes the parse fall back to the empty list. */
  lemma RenderParseRoundTrip(years: seq<nat>)
    ensures IsAscii(RenderYears(years))
    ensures (forall i :: 0 <= i < |years| ==> WithinDigitLimit(years[i])) ==>
      ParsePromotionYears(RenderYears(years)) == years
    ensures (exists i :: 0 <= i < |years| && !WithinDigitLimit(years[i])) ==>
      ParsePromotionYears(RenderYears(years)) == []
  {
    if years == [] {
      assert Split("", ',') == [""];
      assert !HasOverlong([""]) by { assert !IsDigits(Strip("")); }
      assert ParseTokens([""]) == [] by { ParseOneToken(""); }
    } else {
      var pieces := ShowAll(years);
      JoinAscii(pieces, ',');
      SplitJoin(pieces, ',');
      ParseShown(years);
      if exists i :: 0 <= i < |years| && !WithinDigitLimit(years[i]) {
        var i :| 0 <= i < |years| && !WithinDigitLimit(years[i]);
        YearShownOverlong(years, i);
      } else if HasOverlong(pieces) {
        var i := OverlongShownYear(years);
      }
    }
  }
}
