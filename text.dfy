/** The Python string built-ins the report parser relies on: str.strip(),
    str.split(sep), str.split() without a separator, str.startswith() and int()
    on a token.  Strings are sequences of Unicode scalar values, as Python's
    str is a sequence of code points. */
module Text {
  import opened Wrappers

  /** Python's str.isspace() on a single character: the characters str.strip()
      and str.split() without a separator treat as whitespace. */
  predicate IsSpace(c: char) {
    || '\t' <= c <= '\r'
    || '\U{1C}' <= c <= ' '
    || c == '\U{85}' || c == '\U{A0}' || c == '\U{1680}'
    || '\U{2000}' <= c <= '\U{200A}'
    || c == '\U{2028}' || c == '\U{2029}' || c == '\U{202F}' || c == '\U{205F}'
    || c == '\U{3000}'
  }

  predicate AllSpace(s: string) {
    forall i :: 0 <= i < |s| ==> IsSpace(s[i])
  }

  predicate NoSpace(s: string) {
    forall i :: 0 <= i < |s| ==> !IsSpace(s[i])
  }

  /** Neither end of s is whitespace. */
  predicate Trimmed(s: string) {
    s == [] || (!IsSpace(s[0]) && !IsSpace(s[|s| - 1]))
  }

  // ---------------------------------------------------------------- strip

  /** s without its leading whitespace. */
  function StripStart(s: string): (r: string)
    ensures |r| <= |s|
    ensures r == [] || !IsSpace(r[0])
  {
    if s != [] && IsSpace(s[0]) then StripStart(s[1..]) else s
  }

  /** StripStart drops a whitespace prefix and keeps the rest. */
  lemma {:induction false} StripStartSuffix(s: string)
    ensures StripStart(s) == s[|s| - |StripStart(s)|..]
    ensures AllSpace(s[..|s| - |StripStart(s)|])
  {
    if s != [] && IsSpace(s[0]) {
      StripStartSuffix(s[1..]);
      var k := |s| - |StripStart(s)|;
      assert s[1..][k - 1..] == s[k..];
      forall i | 0 <= i < k ensures IsSpace(s[i]) {
        if i > 0 { assert s[1..][..k - 1][i - 1] == s[i]; }
      }
    }
  }

  /** s without its trailing whitespace. */
  function StripEnd(s: string): (r: string)
    ensures |r| <= |s|
    ensures r == [] || !IsSpace(r[|r| - 1])
  {
    if s != [] && IsSpace(s[|s| - 1]) then StripEnd(s[..|s| - 1]) else s
  }

  /** StripEnd drops a whitespace suffix and keeps the rest. */
  lemma {:induction false} StripEndPrefix(s: string)
    ensures StripEnd(s) == s[..|StripEnd(s)|]
    ensures AllSpace(s[|StripEnd(s)|..])
  {
    if s != [] && IsSpace(s[|s| - 1]) {
      var t := s[..|s| - 1];
      StripEndPrefix(t);
      var k := |StripEnd(s)|;
      assert t[..k] == s[..k];
      forall i | k <= i < |s| ensures IsSpace(s[i]) {
        if i < |s| - 1 { assert t[k..][i - k] == s[i]; }
      }
    }
  }

  /** Python's str.strip() without arguments: no whitespace is left at either
      end (StripSlice below says the result is the middle of s). */
  function Strip(s: string): (r: string)
    ensures Trimmed(r)
    ensures |r| <= |s|
  {
    var t := StripStart(s);
    StripEndPrefix(t);
    StripEnd(t)
  }

  /** Number of whitespace characters Strip removes from the front of s. */
  function StripOffset(s: string): nat {
    |s| - |StripStart(s)|
  }

  /** Strip keeps a contiguous slice of s; everything before and after it is
      whitespace. */
  lemma StripSlice(s: string)
    ensures StripOffset(s) + |Strip(s)| <= |s|
    ensures s[StripOffset(s)..StripOffset(s) + |Strip(s)|] == Strip(s)
    ensures AllSpace(s[..StripOffset(s)]) && AllSpace(s[StripOffset(s) + |Strip(s)|..])
  {
    var t := StripStart(s);
    var r := StripEnd(t);
    var i := |s| - |t|;
    StripStartSuffix(s);
    StripEndPrefix(t);
    assert t == s[i..];
    assert r == t[..|r|] && AllSpace(t[|r|..]);
    SuffixSlices(s, i, |r|);
  }

  /** Slicing a suffix of s is slicing s at shifted bounds. */
  lemma SuffixSlices(s: string, i: nat, k: nat)
    requires i + k <= |s|
    ensures s[i..][..k] == s[i..i + k] && s[i..][k..] == s[i + k..]
  {
  }

  lemma {:induction false} StripStartSpaces(a: string, t: string)
    requires AllSpace(a) && (t == [] || !IsSpace(t[0]))
    ensures StripStart(a + t) == t
  {
    if a != [] {
      assert (a + t)[1..] == a[1..] + t;
      StripStartSpaces(a[1..], t);
    } else {
      assert a + t == t;
    }
  }

  lemma {:induction false} StripEndSpaces(t: string, b: string)
    requires AllSpace(b) && (t == [] || !IsSpace(t[|t| - 1]))
    ensures StripEnd(t + b) == t
  {
    if b != [] {
      assert (t + b)[..|t + b| - 1] == t + b[..|b| - 1];
      StripEndSpaces(t, b[..|b| - 1]);
    } else {
      assert t + b == t;
    }
  }

  /** Strip is characterised by its result: whatever whitespace surrounds a
      trimmed string m, stripping gives back exactly m. */
  lemma StripOf(a: string, m: string, b: string)
    requires AllSpace(a) && Trimmed(m) && AllSpace(b)
    ensures Strip(a + m + b) == m
  {
    if m == [] {
      assert a + m + b == a + b;
      assert AllSpace(a + b);
      StripStartSpaces(a + b, []);
      assert a + b + [] == a + b;
    } else {
      assert a + m + b == a + (m + b);
      StripStartSpaces(a, m + b);
      StripEndSpaces(m, b);
    }
  }

  /** Stripping twice is stripping once. */
  lemma StripIdempotent(s: string)
    ensures Strip(Strip(s)) == Strip(s)
  {
    var r := Strip(s);
    StripOf([], r, []);
    assert [] + r + [] == r;
  }

  /** A string strips to nothing exactly when it is all whitespace. */
  lemma StripEmpty(s: string)
    ensures Strip(s) == [] <==> AllSpace(s)
  {
    if AllSpace(s) {
      StripOf(s, [], []);
      assert s + [] + [] == s;
    }
    if Strip(s) == [] {
      StripSlice(s);
      var i := StripOffset(s);
      assert AllSpace(s[..i]) && AllSpace(s[i..]);
      forall k | 0 <= k < |s| ensures IsSpace(s[k]) {
        if k < i { assert s[..i][k] == s[k]; } else { assert s[i..][k - i] == s[k]; }
      }
    }
  }

  // ---------------------------------------------------------------- split(sep)

  /** Number of occurrences of c in s. */
  function Count(s: string, c: char): nat {
    if s == [] then 0 else (if s[0] == c then 1 else 0) + Count(s[1..], c)
  }

  /** The parts joined back together, sep between consecutive parts
      (Python's sep.join(parts)). */
  function Join(parts: seq<string>, sep: char): string
    requires |parts| > 0
  {
    if |parts| == 1 then parts[0] else parts[0] + [sep] + Join(parts[1..], sep)
  }

  /** Python's str.split(sep) for a one-character separator: one part more than
      there are separators, and no part contains sep (JoinSplit below: joining
      the parts with sep gives s back). */
  function SplitOn(s: string, sep: char): (r: seq<string>)
    ensures |r| == Count(s, sep) + 1
    ensures forall k :: 0 <= k < |r| ==> sep !in r[k]
  {
    if s == [] then [[]]
    else
      var rest := SplitOn(s[1..], sep);
      if s[0] == sep then [[]] + rest
      else [[s[0]] + rest[0]] + rest[1..]
  }

  /** Joining the parts of a split with the separator gives the string back. */
  lemma {:induction false} JoinSplit(s: string, sep: char)
    ensures Join(SplitOn(s, sep), sep) == s
  {
    if s != [] {
      var rest := SplitOn(s[1..], sep);
      JoinSplit(s[1..], sep);
      assert s == [s[0]] + s[1..];
      if s[0] != sep {
        var r := SplitOn(s, sep);
        assert r[0] == [s[0]] + rest[0] && r[1..] == rest[1..];
        if |rest| > 1 {
          assert Join(rest, sep) == rest[0] + [sep] + Join(rest[1..], sep);
        }
      }
    }
  }

  lemma {:induction false} SplitOnPrefix(p: string, t: string, sep: char)
    requires sep !in p
    ensures SplitOn(p + t, sep) == [p + SplitOn(t, sep)[0]] + SplitOn(t, sep)[1..]
  {
    var r := SplitOn(t, sep);
    if p == [] {
      assert p + t == t;
      assert p + r[0] == r[0];
    } else {
      var q := p[1..];
      assert (p + t)[0] == p[0] && (p + t)[1..] == q + t;
      SplitOnPrefix(q, t, sep);
      var rest := SplitOn(q + t, sep);
      assert rest[0] == q + r[0] && rest[1..] == r[1..];
      assert [p[0]] + (q + r[0]) == p + r[0];
    }
  }

  /** The parts of `[c] + t` from the parts of t: c starts a new empty part
      when it is the separator and joins the first part otherwise. */
  function SplitCons(c: char, sep: char, parts: seq<string>): seq<string>
    requires parts != []
  {
    if c == sep then [[]] + parts else [[c] + parts[0]] + parts[1..]
  }

  lemma SplitOnCons(c: char, t: string, sep: char)
    ensures SplitOn([c] + t, sep) == SplitCons(c, sep, SplitOn(t, sep))
  {
    assert ([c] + t)[0] == c && ([c] + t)[1..] == t;
  }

  lemma SplitConsAppend(c: char, sep: char, parts: seq<string>, tail: seq<string>)
    requires parts != []
    ensures SplitCons(c, sep, parts + tail) == SplitCons(c, sep, parts) + tail
  {
    if c != sep {
      assert (parts + tail)[0] == parts[0] && (parts + tail)[1..] == parts[1..] + tail;
    }
  }

  /** Splitting at a separator between x and y splits x and y separately. */
  lemma {:induction false} SplitOnConcat(x: string, y: string, sep: char)
    ensures SplitOn(x + [sep] + y, sep) == SplitOn(x, sep) + SplitOn(y, sep)
  {
    var z := x + [sep] + y;
    if x == [] {
      assert z == [sep] + y;
      SplitOnCons(sep, y, sep);
    } else {
      var c, rest := x[0], x[1..];
      assert x == [c] + rest;
      assert z == [c] + (rest + [sep] + y);
      SplitOnConcat(rest, y, sep);
      SplitOnCons(c, rest + [sep] + y, sep);
      SplitOnCons(c, rest, sep);
      SplitConsAppend(c, sep, SplitOn(rest, sep), SplitOn(y, sep));
    }
  }

  /** Splitting undoes joining, provided no part contains the separator. */
  lemma {:induction false} SplitJoin(parts: seq<string>, sep: char)
    requires |parts| > 0
    requires forall k :: 0 <= k < |parts| ==> sep !in parts[k]
    ensures SplitOn(Join(parts, sep), sep) == parts
  {
    var p := parts[0];
    if |parts| == 1 {
      SplitOnPrefix(p, [], sep);
      assert p + [] == p;
    } else {
      var rest := Join(parts[1..], sep);
      SplitJoin(parts[1..], sep);
      var tail := [sep] + rest;
      assert Join(parts, sep) == p + tail;
      SplitOnPrefix(p, tail, sep);
      assert tail[0] == sep && tail[1..] == rest;
      var r := SplitOn(tail, sep);
      assert r == [[]] + parts[1..];
      assert r[0] == [] && r[1..] == parts[1..];
      assert p + [] == p;
      assert parts == [p] + parts[1..];
    }
  }

  // ---------------------------------------------------------------- split()

  /** Length of the run of non-whitespace characters that starts s. */
  function TokenLength(s: string): (n: nat)
    ensures n <= |s| && NoSpace(s[..n]) && (n == |s| || IsSpace(s[n]))
  {
    if s == [] || IsSpace(s[0]) then 0 else 1 + TokenLength(s[1..])
  }

  /** Python's str.split() without a separator: the maximal runs of
      non-whitespace characters, in order; a string that is all whitespace has
      none. */
  function Words(s: string): (r: seq<string>)
    ensures forall k :: 0 <= k < |r| ==> r[k] != [] && NoSpace(r[k])
    ensures r == [] <==> AllSpace(s)
    decreases |s|
  {
    if s == [] then []
    else if IsSpace(s[0]) then Words(s[1..])
    else
      var n := TokenLength(s);
      [s[..n]] + Words(s[n..])
  }

  lemma {:induction false} TokenLengthOf(w: string, rest: string)
    requires NoSpace(w) && (rest == [] || IsSpace(rest[0]))
    ensures TokenLength(w + rest) == |w|
  {
    if w != [] {
      assert (w + rest)[1..] == w[1..] + rest;
      TokenLengthOf(w[1..], rest);
    } else {
      assert w + rest == rest;
    }
  }

  /** A word followed by a space and more text splits into that word and the
      words of the rest. */
  lemma WordsCons(w: string, rest: string)
    requires w != [] && NoSpace(w)
    ensures Words(w + " " + rest) == [w] + Words(rest)
  {
    var tail := [' '] + rest;
    var s := w + tail;
    assert s == w + " " + rest;
    TokenLengthOf(w, tail);
    assert s[..|w|] == w;
    assert s[|w|..] == tail;
    assert s[0] == w[0];
    assert tail[1..] == rest;
  }

  /** A single word is its own split. */
  lemma WordsSingle(w: string)
    requires w != [] && NoSpace(w)
    ensures Words(w) == [w]
  {
    TokenLengthOf(w, []);
    assert w + [] == w;
    assert w[..|w|] == w;
  }

  /** Leading whitespace does not change the split. */
  lemma {:induction false} WordsLeadingSpace(a: string, s: string)
    requires AllSpace(a)
    ensures Words(a + s) == Words(s)
  {
    if a != [] {
      assert (a + s)[1..] == a[1..] + s;
      WordsLeadingSpace(a[1..], s);
    } else {
      assert a + s == s;
    }
  }

  /** A word followed by any non-empty run of whitespace and more text splits
      into that word and the words of the rest. */
  lemma WordsSpaceRun(w: string, b: string, rest: string)
    requires w != [] && NoSpace(w) && b != [] && AllSpace(b)
    ensures Words(w + b + rest) == [w] + Words(rest)
  {
    var tail := b + rest;
    var s := w + tail;
    assert s == w + b + rest;
    assert tail[0] == b[0];
    TokenLengthOf(w, tail);
    assert s[..|w|] == w && s[|w|..] == tail && s[0] == w[0];
    WordsLeadingSpace(b, rest);
  }

  /** Text after a string that ends inside a token, or after a whitespace
      boundary, does not change that string's first token length. */
  lemma {:induction false} TokenLengthAppend(s: string, t: string)
    requires t == [] || IsSpace(t[0]) || TokenLength(s) < |s|
    ensures TokenLength(s + t) == TokenLength(s)
  {
    if s == [] {
      assert s + t == t;
    } else if !IsSpace(s[0]) {
      assert (s + t)[0] == s[0] && (s + t)[1..] == s[1..] + t;
      TokenLengthAppend(s[1..], t);
    } else {
      assert (s + t)[0] == s[0];
    }
  }

  /** Trailing whitespace does not change the split. */
  lemma {:induction false} WordsTrailingSpace(s: string, b: string)
    requires AllSpace(b)
    ensures Words(s + b) == Words(s)
    decreases |s|
  {
    var x := s + b;
    if s == [] {
      assert x == b;
    } else if IsSpace(s[0]) {
      assert x[0] == s[0] && x[1..] == s[1..] + b;
      WordsTrailingSpace(s[1..], b);
    } else {
      var n := TokenLength(s);
      TokenLengthAppend(s, b);
      assert x[0] == s[0];
      assert x[..n] == s[..n] && x[n..] == s[n..] + b;
      WordsTrailingSpace(s[n..], b);
    }
  }

  /** Splitting undoes joining words with single spaces. */
  lemma {:induction false} WordsUnwords(ws: seq<string>)
    requires |ws| > 0
    requires forall k :: 0 <= k < |ws| ==> ws[k] != [] && NoSpace(ws[k])
    ensures Words(Join(ws, ' ')) == ws
  {
    if |ws| == 1 {
      WordsSingle(ws[0]);
    } else {
      WordsUnwords(ws[1..]);
      WordsCons(ws[0], Join(ws[1..], ' '));
      assert ws == [ws[0]] + ws[1..];
    }
  }

  // ---------------------------------------------------------------- startswith

  /** Python's str.startswith(p). */
  predicate StartsWith(s: string, p: string) {
    |p| <= |s| && s[..|p|] == p
  }

  /** s starts with p exactly when s is p followed by something. */
  lemma StartsWithIff(s: string, p: string)
    ensures StartsWith(s, p) <==> exists t :: s == p + t
  {
    if StartsWith(s, p) {
      assert s == p + s[|p|..];
    }
    forall t | s == p + t
      ensures StartsWith(s, p)
    {
      assert s[..|p|] == p;
    }
  }

  // ---------------------------------------------------------------- int()

  predicate IsDigit(c: char) {
    '0' <= c <= '9'
  }

  predicate AllDigits(s: string) {
    forall i :: 0 <= i < |s| ==> IsDigit(s[i])
  }

  /** The value of a run of ASCII decimal digits. */
  function DigitsValue(s: string): nat
    requires AllDigits(s)
  {
    if s == [] then 0 else DigitsValue(s[..|s| - 1]) * 10 + (s[|s| - 1] as int - '0' as int)
  }

  /** Decimal digits of n, most significant first, without leading zeros. */
  function ShowNat(n: nat): (r: string)
    ensures r != [] && AllDigits(r)
  {
    var d := [('0' as int + n % 10) as char];
    if n < 10 then d else ShowNat(n / 10) + d
  }

  /** Decimal form of an integer, with a '-' sign when negative. */
  function ShowInt(n: int): (r: string)
    ensures r != []
  {
    if n < 0 then "-" + ShowNat(-n) else ShowNat(n)
  }

  /** Python's int() on a whitespace-free token: an optional '+' or '-' sign
      followed by at least one ASCII digit; leading zeros are allowed.  Anything
      else is the ValueError int() raises, here None. */
  function ParseInt(s: string): (r: Option<int>)
    ensures r.Some? ==> |s| > 0 && (forall i :: 0 < i < |s| ==> IsDigit(s[i]))
    ensures r.Some? ==> IsDigit(s[0]) || ((s[0] == '+' || s[0] == '-') && |s| > 1)
    ensures r.Some? && r.value < 0 ==> s[0] == '-'
  {
    if s != [] && (s[0] == '+' || s[0] == '-') then
      var ds := s[1..];
      if ds != [] && AllDigits(ds) then
        var v: int := DigitsValue(ds);
        Some(if s[0] == '-' then -v else v)
      else None
    else if s != [] && AllDigits(s) then Some(DigitsValue(s))
    else None
  }

  /** The tokens int() accepts are exactly the runs of digits, bare or after
      one '+' or '-' sign. */
  lemma ParseIntAccepts(s: string)
    ensures ParseInt(s).Some? <==>
      || (s != [] && AllDigits(s))
      || (|s| > 1 && (s[0] == '+' || s[0] == '-') && AllDigits(s[1..]))
  {
  }

  lemma {:induction false} ShowNatValue(n: nat)
    ensures DigitsValue(ShowNat(n)) == n
  {
    if n >= 10 {
      ShowNatValue(n / 10);
      var r := ShowNat(n);
      assert r[..|r| - 1] == ShowNat(n / 10);
    }
  }

  /** int() reads back what ShowInt writes. */
  lemma ParseShowInt(n: int)
    ensures ParseInt(ShowInt(n)) == Some(n)
  {
    if n < 0 {
      var ds := ShowNat(-n);
      ShowNatValue(-n);
      var s := "-" + ds;
      assert s == ShowInt(n);
      assert s[0] == '-' && s[1..] == ds;
      assert ParseInt(s) == Some(0 - DigitsValue(ds));
    } else {
      var s := ShowNat(n);
      ShowNatValue(n);
      assert s == ShowInt(n);
      assert IsDigit(s[0]);
      assert ParseInt(s) == Some(DigitsValue(s));
    }
  }

  /** All-zero digits. */
  predicate AllZeros(z: string) {
    forall i :: 0 <= i < |z| ==> z[i] == '0'
  }

  /** Leading zeros do not change the value of a run of digits. */
  lemma {:induction false} DigitsValueZeros(z: string, ds: string)
    requires AllZeros(z) && AllDigits(ds)
    ensures AllDigits(z + ds) && DigitsValue(z + ds) == DigitsValue(ds)
    decreases |z| + |ds|
  {
    var s := z + ds;
    if ds == [] {
      assert s == z;
      if z != [] {
        DigitsValueZeros(z[..|z| - 1], []);
        assert z[..|z| - 1] + [] == z[..|z| - 1];
      }
    } else {
      assert s[..|s| - 1] == z + ds[..|ds| - 1] && s[|s| - 1] == ds[|ds| - 1];
      DigitsValueZeros(z, ds[..|ds| - 1]);
    }
  }

  /** A run of digits, bare or after a sign, reads as its value. */
  lemma ParseIntDigits(ds: string)
    requires ds != [] && AllDigits(ds)
    ensures ParseInt(ds) == Some(DigitsValue(ds))
    ensures ParseInt("+" + ds) == Some(DigitsValue(ds))
    ensures ParseInt("-" + ds) == Some(-(DigitsValue(ds) as int))
  {
    assert IsDigit(ds[0]);
    var plus, minus := "+" + ds, "-" + ds;
    assert plus[0] == '+' && plus[1..] == ds;
    assert minus[0] == '-' && minus[1..] == ds;
  }

  /** int() accepts leading zeros and an explicit sign: for every n, the
      digits of n after any number of zeros read as n, after '+' as n and
      after '-' as -n. */
  lemma ParseIntZeros(z: string, n: nat)
    requires AllZeros(z)
    ensures ParseInt(z + ShowNat(n)) == Some(n)
    ensures ParseInt("+" + (z + ShowNat(n))) == Some(n)
    ensures ParseInt("-" + (z + ShowNat(n))) == Some(-(n as int))
  {
    DigitsValueZeros(z, ShowNat(n));
    ShowNatValue(n);
    ParseIntDigits(z + ShowNat(n));
  }

  /** `int("007")` is 7 and `int("+5")` is 5. */
  lemma ParseIntExamples()
    ensures ParseInt("007") == Some(7) && ParseInt("+5") == Some(5)
  {
    var seven, five: string := "7", "5";
    assert seven[..0] == [] && five[..0] == [];
    assert DigitsValue(seven) == 7 && DigitsValue(five) == 5;
    DigitsValueZeros("00", seven);
    assert "00" + seven == "007";
    ParseIntDigits("007");
    ParseIntDigits(five);
    assert "+" + five == "+5";
  }
}
