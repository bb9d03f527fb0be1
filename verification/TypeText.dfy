/** Text handling of type declarations: trimming, case folding outside quotes, array
    suffixes and the modifier's parentheses. */
module TypeText {
  import opened Collections

  predicate IsSpace(c: char) {
    c == ' ' || c == '\t' || c == '\n' || c == '\r' || c == '\U{0B}' || c == '\U{0C}'
  }

  function TrimStart(s: string): string {
    if s != "" && IsSpace(s[0]) then TrimStart(s[1..]) else s
  }

  function TrimEnd(s: string): string {
    if s != "" && IsSpace(s[|s| - 1]) then TrimEnd(s[..|s| - 1]) else s
  }

  function Trim(s: string): string {
    TrimEnd(TrimStart(s))
  }

  /** No white space at either end. */
  predicate Tight(s: string) {
    s == "" || (!IsSpace(s[0]) && !IsSpace(s[|s| - 1]))
  }

  lemma TightIsTrimmed(s: string)
    requires Tight(s)
    ensures Trim(s) == s
  {
  }

  lemma {:induction false} TrimStartCuts(s: string) returns (front: string)
    ensures s == front + TrimStart(s) && forall i :: 0 <= i < |front| ==> IsSpace(front[i])
    ensures TrimStart(s) == "" || !IsSpace(TrimStart(s)[0])
  {
    if s != "" && IsSpace(s[0]) {
      var tail := s[1..];
      var rest := TrimStartCuts(tail);
      front := [s[0]] + rest;
      assert TrimStart(s) == TrimStart(tail);
      assert s == [s[0]] + tail == front + TrimStart(tail);
    } else {
      front := "";
    }
  }

  lemma {:induction false} TrimEndCuts(s: string) returns (back: string)
    ensures s == TrimEnd(s) + back && forall i :: 0 <= i < |back| ==> IsSpace(back[i])
    ensures TrimEnd(s) == "" || !IsSpace(TrimEnd(s)[|TrimEnd(s)| - 1])
  {
    if s != "" && IsSpace(s[|s| - 1]) {
      var rest := TrimEndCuts(s[..|s| - 1]);
      back := rest + [s[|s| - 1]];
      assert s == s[..|s| - 1] + [s[|s| - 1]];
    } else {
      back := "";
    }
  }

  /** Trimming only takes white space off both ends. */
  lemma {:induction false} TrimCuts(s: string) returns (front: string, back: string)
    ensures s == front + Trim(s) + back && Tight(Trim(s))
    ensures forall i :: 0 <= i < |front| ==> IsSpace(front[i])
    ensures forall i :: 0 <= i < |back| ==> IsSpace(back[i])
  {
    front := TrimStartCuts(s);
    back := TrimEndCuts(TrimStart(s));
    assert Trim(s) != "" ==> TrimStart(s)[0] == Trim(s)[0];
    assert s == front + (Trim(s) + back) == front + Trim(s) + back;
  }

  // ------------------------------------------------- case folding

  function Lower(c: char): char {
    if 'A' <= c <= 'Z' then ((c as int) + 32) as char else c
  }

  /** Lower case outside double quotes; a quote toggles. */
  function Fold(s: string, quoted: bool): string {
    if s == "" then "" else [FoldedChar(s[0], quoted)] + Fold(s[1..], Toggled(s[0], quoted))
  }

  function FoldedChar(c: char, quoted: bool): char {
    if c == '"' || quoted then c else Lower(c)
  }

  function Toggled(c: char, quoted: bool): bool {
    if c == '"' then !quoted else quoted
  }

  /** Whether a scan that starts in `quoted` ends inside quotes. */
  function InQuotes(s: string, quoted: bool): bool {
    if s == "" then quoted else InQuotes(s[1..], Toggled(s[0], quoted))
  }

  lemma {:induction false} FoldConcat(a: string, b: string, quoted: bool)
    ensures Fold(a + b, quoted) == Fold(a, quoted) + Fold(b, InQuotes(a, quoted))
    ensures InQuotes(a + b, quoted) == InQuotes(b, InQuotes(a, quoted))
    ensures |Fold(a, quoted)| == |a|
  {
    if a == "" {
      assert a + b == b;
    } else {
      var t, next := a + b, Toggled(a[0], quoted);
      assert t[0] == a[0] && t[1..] == a[1..] + b;
      FoldConcat(a[1..], b, next);
      assert Fold(t, quoted) == [FoldedChar(a[0], quoted)] + (Fold(a[1..], next) + Fold(b, InQuotes(a, quoted)));
    }
  }

  lemma {:induction false} FoldTwice(s: string, quoted: bool)
    ensures Fold(Fold(s, quoted), quoted) == Fold(s, quoted)
    ensures InQuotes(Fold(s, quoted), quoted) == InQuotes(s, quoted)
  {
    if s != "" {
      var next := Toggled(s[0], quoted);
      FoldTwice(s[1..], next);
      assert Fold(s, quoted)[1..] == Fold(s[1..], next);
    }
  }

  lemma {:induction false} FoldKeepsSpaces(s: string, quoted: bool)
    ensures |Fold(s, quoted)| == |s|
    ensures forall i :: 0 <= i < |s| ==> (IsSpace(Fold(s, quoted)[i]) <==> IsSpace(s[i]))
  {
    if s != "" {
      var next := Toggled(s[0], quoted);
      FoldKeepsSpaces(s[1..], next);
      assert Fold(s, quoted)[1..] == Fold(s[1..], next);
      forall i | 0 < i < |s| ensures IsSpace(Fold(s, quoted)[i]) <==> IsSpace(s[i]) {
        assert Fold(s, quoted)[i] == Fold(s[1..], next)[i - 1] && s[i] == s[1..][i - 1];
      }
    }
  }

  /** Text with neither quotes nor capitals: folding leaves it alone in any state. */
  predicate Inert(s: string) {
    forall i :: 0 <= i < |s| ==> s[i] != '"' && Lower(s[i]) == s[i]
  }

  lemma {:induction false} InertIsStable(s: string, quoted: bool)
    requires Inert(s)
    ensures Fold(s, quoted) == s && InQuotes(s, quoted) == quoted
  {
    if s != "" {
      InertIsStable(s[1..], quoted);
      assert s == [s[0]] + s[1..];
    }
  }

  /** The folding loop with its one-character look-ahead for doubled quotes. */
  method FoldUnquotedIdentifierCase(raw: string) returns (folded: string)
    ensures folded == Fold(raw, false)
  {
    folded := "";
    var inQuotes := false;
    var i := 0;
    while i < |raw|
      invariant 0 <= i <= |raw|
      invariant Fold(raw, false) == folded + Fold(raw[i..], inQuotes)
    {
      var ch := raw[i];
      assert raw[i..][1..] == raw[i + 1..];
      if ch == '"' && inQuotes && i + 1 < |raw| && raw[i + 1] == '"' {
        assert raw[i + 1..][1..] == raw[i + 2..];
        folded := folded + "\"\"";
        i := i + 2;
      } else {
        if ch == '"' {
          inQuotes := !inQuotes;
          folded := folded + [ch];
        } else if inQuotes {
          folded := folded + [ch];
        } else {
          folded := folded + [Lower(ch)];
        }
        i := i + 1;
      }
    }
  }

  // ------------------------------------------------- array suffixes

  datatype Stripped = Stripped(text: string, dimensions: nat)

  predicate EndsWithArray(s: string) {
    |s| >= 2 && s[|s| - 2] == '[' && s[|s| - 1] == ']'
  }

  function StripArrays(s: string): Stripped
    decreases |s|
  {
    if EndsWithArray(s) then
      TrimShrinks(s[..|s| - 2]);
      var inner := StripArrays(Trim(s[..|s| - 2]));
      inner.(dimensions := inner.dimensions + 1)
    else Stripped(s, 0)
  }

  lemma TrimShrinks(s: string)
    ensures |Trim(s)| <= |s|
  {
    var front, back := TrimCuts(s);
  }

  function ArraySuffix(n: nat): string {
    if n == 0 then "" else ArraySuffix(n - 1) + "[]"
  }

  /** Stripping leaves a beginning of the text. */
  lemma {:induction false} StrippedIsPrefix(s: string)
    requires Tight(s)
    ensures StripArrays(s).text <= s && Tight(StripArrays(s).text)
    decreases |s|
  {
    if EndsWithArray(s) {
      var cut := s[..|s| - 2];
      var back := TrimEndCuts(cut);
      var _, _ := TrimCuts(cut);
      TrimShrinks(cut);
      StrippedIsPrefix(Trim(cut));
    }
  }

  lemma {:induction false} SuffixedIsTight(s: string, n: nat)
    requires s != "" && Tight(s)
    ensures Tight(s + ArraySuffix(n)) && s + ArraySuffix(n) != ""
  {
    if n == 0 {
      assert s + "" == s;
    } else {
      assert s + ArraySuffix(n) == (s + ArraySuffix(n - 1)) + "[]";
    }
  }

  lemma {:induction false} StripOne(s: string)
    requires Tight(s)
    ensures StripArrays(s + "[]") == StripArrays(s).(dimensions := StripArrays(s).dimensions + 1)
  {
    var t := s + "[]";
    assert t[..|t| - 2] == s;
    TightIsTrimmed(s);
  }

  lemma {:induction false} StripRemovesSuffix(s: string, n: nat)
    requires s != "" && Tight(s) && !EndsWithArray(s)
    ensures StripArrays(s + ArraySuffix(n)) == Stripped(s, n)
    decreases n
  {
    if n == 0 {
      assert s + "" == s;
    } else {
      var shorter := s + ArraySuffix(n - 1);
      assert s + ArraySuffix(n) == shorter + "[]";
      assert StripArrays(shorter) == Stripped(s, n - 1) && Tight(shorter) by {
        StripRemovesSuffix(s, n - 1);
        SuffixedIsTight(s, n - 1);
      }
      StripOne(shorter);
    }
  }

  // ------------------------------------------------- the modifier

  function FirstIndexOf(s: string, c: char): (r: Option<nat>)
    ensures r.Some? ==> r.value < |s| && s[r.value] == c && forall i :: 0 <= i < r.value ==> s[i] != c
    ensures r.None? ==> forall i :: 0 <= i < |s| ==> s[i] != c
  {
    if s == "" then None
    else if s[0] == c then Some(0)
    else match FirstIndexOf(s[1..], c) case None => None case Some(i) => Some(i + 1)
  }

  function LastIndexOf(s: string, c: char): (r: Option<nat>)
    ensures r.Some? ==> r.value < |s| && s[r.value] == c && forall i :: r.value < i < |s| ==> s[i] != c
    ensures r.None? ==> forall i :: 0 <= i < |s| ==> s[i] != c
  {
    if s == "" then None
    else if s[|s| - 1] == c then Some(|s| - 1)
    else LastIndexOf(s[..|s| - 1], c)
  }

  datatype Declared = Declared(text: string, base: string, mods: Option<string>)

  /** First opening to last closing parenthesis; a qualifier behind it joins the name. */
  function SplitModifier(s: string): Declared {
    var open, close := FirstIndexOf(s, '('), LastIndexOf(s, ')');
    if open.Some? && close.Some? && close.value > open.value then
      var pre := Trim(s[..open.value]);
      var post := Trim(s[close.value + 1..]);
      Declared(if post == "" then pre else pre + " " + post, pre, Some(Trim(s[open.value + 1..close.value])))
    else Declared(s, s, None)
  }

  // ------------------------------------------------- integers

  predicate IsDigit(c: char) {
    '0' <= c <= '9'
  }

  function Digits(s: string): (r: Option<nat>)
    ensures r.Some? ==> s != ""
  {
    if s == "" then None
    else if !IsDigit(s[|s| - 1]) then None
    else
      var d := (s[|s| - 1] as int) - ('0' as int);
      if |s| == 1 then Some(d)
      else match Digits(s[..|s| - 1]) case None => None case Some(n) => Some(10 * n + d)
  }

  /** A 32-bit signed integer with an optional sign. */
  function ParseI32(s: string): (r: Option<int>)
    ensures r.Some? ==> -0x8000_0000 <= r.value < 0x8000_0000
  {
    if s == "" then None
    else if s[0] == '-' then
      var d := Digits(s[1..]);
      if d.Some? && d.value <= 0x8000_0000 then (var n: int := d.value; Some(-n)) else None
    else
      match Digits(if s[0] == '+' then s[1..] else s) { case Some(n) => if n < 0x8000_0000 then Some(n) else None case None => None }
  }

  function ParseU32(s: string): (r: Option<nat>)
    ensures r.Some? ==> r.value < 0x1_0000_0000
  {
    if s == "" then None
    else match Digits(if s[0] == '+' then s[1..] else s)
         case Some(n) => if n < 0x1_0000_0000 then Some(n) else None
         case None => None
  }
}
