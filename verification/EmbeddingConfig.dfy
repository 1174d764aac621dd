/** The versioned collection name of an embedding configuration, and the settings a re-index build derives
    from a target configuration. */
module EmbeddingConfigs {
  import opened Wrappers
  import opened DocumentRecord
  import opened Decimals
  import opened WordLists

  // ----- sanitizing one part -----

  /** What `str.lower()` does to a character outside ASCII; any function may stand for it. */
  type Lowering = char -> string

  function LowerChar(c: char, other: Lowering): string {
    if 'A' <= c <= 'Z' then [(c as int + 32) as char] else if c as int < 128 then [c] else other(c)
  }

  function Lower(s: string, other: Lowering): string {
    if s == "" then "" else LowerChar(s[0], other) + Lower(s[1..], other)
  }

  predicate SafeChar(c: char) {
    'a' <= c <= 'z' || '0' <= c <= '9' || c == '_' || c == '-'
  }

  predicate Safe(s: string) {
    forall i :: 0 <= i < |s| ==> SafeChar(s[i])
  }

  /** The length of the longest prefix without a safe character. */
  function UnsafePrefix(s: string): (n: nat)
    ensures n <= |s| && forall i :: 0 <= i < n ==> !SafeChar(s[i])
    ensures n < |s| ==> SafeChar(s[n])
  {
    if s == "" || SafeChar(s[0]) then 0 else 1 + UnsafePrefix(s[1..])
  }

  /** Every maximal run of unsafe characters becomes one dash. */
  function Collapse(s: string): (r: string)
    ensures Safe(r)
    decreases |s|
  {
    if s == "" then ""
    else if SafeChar(s[0]) then [s[0]] + Collapse(s[1..])
    else "-" + Collapse(s[UnsafePrefix(s)..])
  }

  function TrimFront(s: string, c: char -> bool): string {
    if s != "" && c(s[0]) then TrimFront(s[1..], c) else s
  }

  function TrimBack(s: string, c: char -> bool): string {
    if s != "" && c(Last(s)) then TrimBack(s[..|s| - 1], c) else s
  }

  /** `str.strip` of the characters `c` accepts. */
  function Trim(s: string, c: char -> bool): string {
    TrimBack(TrimFront(s, c), c)
  }

  function IsDash(c: char): bool {
    c == '-'
  }

  function Sanitize(value: string, other: Lowering): string {
    Trim(Collapse(Lower(Trim(value, IsSpace), other)), IsDash)
  }

  /** Nothing to strip at either end. */
  predicate Trimmed(s: string, c: char -> bool) {
    s == "" || (!c(s[0]) && !c(Last(s)))
  }

  lemma {:induction false} TrimFrontTrims(s: string, c: char -> bool)
    ensures var r := TrimFront(s, c); |r| <= |s| && r == s[|s| - |r|..] && (r == "" || !c(r[0]))
  {
    if s != "" && c(s[0]) {
      TrimFrontTrims(s[1..], c);
    }
  }

  lemma {:induction false} TrimBackTrims(s: string, c: char -> bool)
    ensures var r := TrimBack(s, c); r <= s && (r == "" || !c(Last(r)))
  {
    if s != "" && c(Last(s)) {
      TrimBackTrims(s[..|s| - 1], c);
    }
  }

  lemma TrimTrims(s: string, c: char -> bool)
    ensures Trimmed(Trim(s, c), c)
    ensures Safe(s) ==> Safe(Trim(s, c))
  {
    var t := TrimFront(s, c);
    TrimFrontTrims(s, c);
    TrimBackTrims(t, c);
    assert Trim(s, c) != "" ==> Trim(s, c)[0] == t[0];
  }

  lemma TrimKeeps(s: string, c: char -> bool)
    requires Trimmed(s, c)
    ensures Trim(s, c) == s
  {
  }

  lemma {:induction false} LowerKeepsSafe(s: string, other: Lowering)
    requires Safe(s)
    ensures Lower(s, other) == s
  {
    if s != "" {
      LowerKeepsSafe(s[1..], other);
    }
  }

  lemma {:induction false} CollapseKeepsSafe(s: string)
    requires Safe(s)
    ensures Collapse(s) == s
  {
    if s != "" {
      CollapseKeepsSafe(s[1..]);
    }
  }

  /** A sanitized part: safe characters only, no dash at either end. */
  predicate Sanitized(s: string) {
    Safe(s) && Trimmed(s, IsDash)
  }

  lemma SafeIsTrimmed(s: string)
    requires Safe(s)
    ensures Trimmed(s, IsSpace)
  {
  }

  /** The sanitized parts are exactly what sanitizing yields and exactly what it leaves alone; so it is
      idempotent, whatever lowercasing does outside ASCII. */
  lemma SanitizeIsIdempotent(value: string, other: Lowering)
    ensures Sanitized(Sanitize(value, other))
    ensures Sanitize(value, other) == value <==> Sanitized(value)
    ensures Sanitize(Sanitize(value, other), other) == Sanitize(value, other)
  {
    TrimTrims(Collapse(Lower(Trim(value, IsSpace), other)), IsDash);
    if Sanitized(value) {
      SanitizedStays(value, other);
    }
    SanitizedStays(Sanitize(value, other), other);
  }

  lemma SanitizedStays(s: string, other: Lowering)
    requires Sanitized(s)
    ensures Sanitize(s, other) == s
  {
    SafeIsTrimmed(s);
    TrimKeeps(s, IsSpace);
    LowerKeepsSafe(s, other);
    CollapseKeepsSafe(s);
    TrimKeeps(s, IsDash);
  }

  predicate All(s: string, c: char -> bool) {
    forall i :: 0 <= i < |s| ==> c(s[i])
  }

  lemma {:induction false} TrimFrontDrops(s: string, c: char -> bool) returns (a: string)
    ensures s == a + TrimFront(s, c) && All(a, c)
  {
    if s != "" && c(s[0]) {
      var rest := TrimFrontDrops(s[1..], c);
      a := [s[0]] + rest;
      assert s == [s[0]] + s[1..];
    } else {
      a := "";
    }
  }

  lemma {:induction false} TrimBackDrops(s: string, c: char -> bool) returns (b: string)
    ensures s == TrimBack(s, c) + b && All(b, c)
  {
    if s != "" && c(Last(s)) {
      var rest := TrimBackDrops(s[..|s| - 1], c);
      b := rest + [Last(s)];
      assert s == s[..|s| - 1] + [Last(s)];
    } else {
      b := "";
    }
  }

  /** Stripping removes nothing but accepted characters at the two ends, and leaves none there. */
  lemma TrimIsStrip(s: string, c: char -> bool) returns (a: string, b: string)
    ensures s == a + Trim(s, c) + b && All(a, c) && All(b, c)
    ensures Trim(s, c) == "" || (!c(Trim(s, c)[0]) && !c(Last(Trim(s, c))))
  {
    a := TrimFrontDrops(s, c);
    b := TrimBackDrops(TrimFront(s, c), c);
    TrimTrims(s, c);
    assert s == a + (Trim(s, c) + b);
  }

  /** Safe characters stay as they are. */
  lemma {:induction false} CollapseKeeps(safe: string, rest: string)
    requires Safe(safe)
    ensures Collapse(safe + rest) == safe + Collapse(rest)
  {
    if safe == "" {
      assert safe + rest == rest;
    } else {
      CollapseKeeps(safe[1..], rest);
      assert (safe + rest)[1..] == safe[1..] + rest;
    }
  }

  lemma {:induction false} PrefixIsRun(run: string, rest: string)
    requires (forall i :: 0 <= i < |run| ==> !SafeChar(run[i])) && (rest == "" || SafeChar(rest[0]))
    ensures UnsafePrefix(run + rest) == |run|
  {
    if run == "" {
      assert run + rest == rest;
    } else {
      PrefixIsRun(run[1..], rest);
      assert (run + rest)[1..] == run[1..] + rest;
    }
  }

  /** A maximal run of other characters becomes one dash. */
  lemma CollapseRun(run: string, rest: string)
    requires run != "" && (forall i :: 0 <= i < |run| ==> !SafeChar(run[i])) && (rest == "" || SafeChar(rest[0]))
    ensures Collapse(run + rest) == "-" + Collapse(rest)
  {
    PrefixIsRun(run, rest);
    assert (run + rest)[|run|..] == rest;
  }

  // ----- configurations and their names -----

  datatype EmbeddingConfig = EmbeddingConfig(prefix: string, provider: string, model: string, dimension: int,
                                             embeddingVersion: string, chunkingVersion: string)

  /** What the configuration's own validation demands. */
  predicate ValidConfig(c: EmbeddingConfig) {
    && !Blank(c.prefix) && !Blank(c.provider) && !Blank(c.model) && !Blank(c.embeddingVersion) && !Blank(c.chunkingVersion)
    && c.dimension > 0
  }

  const SEPARATOR := "__"

  /** The six fields as they enter the name. */
  function Fields(c: EmbeddingConfig): (fields: seq<string>)
    requires c.dimension > 0
    ensures |fields| == 6
  {
    [c.prefix, c.provider, c.model, "e" + c.embeddingVersion, "c" + c.chunkingVersion, "d" + Decimal(c.dimension)]
  }

  function SanitizeAll(fields: seq<string>, other: Lowering): (parts: seq<string>)
    ensures |parts| == |fields| && forall i :: 0 <= i < |fields| ==> parts[i] == Sanitize(fields[i], other)
  {
    seq(|fields|, i requires 0 <= i < |fields| => Sanitize(fields[i], other))
  }

  function JoinParts(parts: seq<string>, i: nat): string
    requires i < |parts|
    decreases |parts| - i
  {
    if i == |parts| - 1 then parts[i] else parts[i] + (SEPARATOR + JoinParts(parts, i + 1))
  }

  function CollectionName(c: EmbeddingConfig, other: Lowering): string
    requires c.dimension > 0
  {
    JoinParts(SanitizeAll(Fields(c), other), 0)
  }

  /** The six sanitized fields in their order, each of the last three behind its letter, two underscores
      between any two. */
  lemma NameFormat(c: EmbeddingConfig, other: Lowering)
    requires c.dimension > 0
    ensures CollectionName(c, other) ==
              Sanitize(c.prefix, other) + ("__" + (Sanitize(c.provider, other) + ("__" + (Sanitize(c.model, other)
              + ("__" + (Sanitize("e" + c.embeddingVersion, other) + ("__" + (Sanitize("c" + c.chunkingVersion, other)
              + ("__" + Sanitize("d" + Decimal(c.dimension), other))))))))))
  {
    var parts := SanitizeAll(Fields(c), other);
    assert JoinParts(parts, 5) == parts[5];
    assert JoinParts(parts, 4) == parts[4] + ("__" + JoinParts(parts, 5));
    assert JoinParts(parts, 3) == parts[3] + ("__" + JoinParts(parts, 4));
    assert JoinParts(parts, 2) == parts[2] + ("__" + JoinParts(parts, 3));
    assert JoinParts(parts, 1) == parts[1] + ("__" + JoinParts(parts, 2));
  }

  // ----- reading a name back -----

  /** Where the first separator starts, or the whole length. */
  function FirstSeparator(s: string): (n: nat)
    ensures n <= |s| && (n < |s| ==> n + 2 <= |s|)
  {
    if |s| < 2 then |s| else if s[..2] == SEPARATOR then 0 else 1 + FirstSeparator(s[1..])
  }

  /** The first `n` parts of a name. */
  function SplitName(s: string, n: nat): seq<string> {
    if n <= 1 then [s]
    else
      var k := FirstSeparator(s);
      if k == |s| then [s] else [s[..k]] + SplitName(s[k + 2..], n - 1)
  }

  /** A part that cannot be confused with a separator: no double underscore, none at its end. */
  predicate Unambiguous(s: string) {
    FirstSeparator(s + "_") == |s| + 1
  }

  predicate AllUnambiguous(parts: seq<string>) {
    forall i :: 0 <= i < |parts| ==> Unambiguous(parts[i])
  }

  lemma {:induction false} SeparatorAfter(part: string, rest: string)
    requires Unambiguous(part)
    ensures FirstSeparator(part + (SEPARATOR + rest)) == |part|
  {
    var s := part + (SEPARATOR + rest);
    if part == "" {
      assert s[..2] == SEPARATOR;
    } else {
      assert s[1..] == part[1..] + (SEPARATOR + rest);
      assert (part + "_")[1..] == part[1..] + "_";
      assert s[..2] == (part + "_")[..2];
      SeparatorAfter(part[1..], rest);
    }
  }

  lemma {:induction false} SplitJoined(parts: seq<string>, i: nat)
    requires i < |parts| && AllUnambiguous(parts)
    ensures SplitName(JoinParts(parts, i), |parts| - i) == parts[i..]
    decreases |parts| - i
  {
    if i < |parts| - 1 {
      var rest := JoinParts(parts, i + 1);
      SeparatorAfter(parts[i], rest);
      var s := parts[i] + (SEPARATOR + rest);
      assert s[..|parts[i]|] == parts[i] && s[|parts[i]| + 2..] == rest;
      SplitJoined(parts, i + 1);
    }
  }

  lemma JoinedAreEqual(a: seq<string>, b: seq<string>)
    requires |a| == |b| > 0 && AllUnambiguous(a) && AllUnambiguous(b) && JoinParts(a, 0) == JoinParts(b, 0)
    ensures a == b
  {
    SplitJoined(a, 0);
    SplitJoined(b, 0);
    assert a[0..] == a && b[0..] == b;
  }

  /** When no sanitized part can be confused with the separator, two configurations share a collection name
      if and only if all their sanitized parts are equal. */
  lemma NameIsExact(a: EmbeddingConfig, b: EmbeddingConfig, other: Lowering)
    requires a.dimension > 0 && b.dimension > 0
    requires AllUnambiguous(SanitizeAll(Fields(a), other)) && AllUnambiguous(SanitizeAll(Fields(b), other))
    ensures CollectionName(a, other) == CollectionName(b, other) <==>
              SanitizeAll(Fields(a), other) == SanitizeAll(Fields(b), other)
  {
    if CollectionName(a, other) == CollectionName(b, other) {
      JoinedAreEqual(SanitizeAll(Fields(a), other), SanitizeAll(Fields(b), other));
    }
  }

  // ----- which names have one reading only -----

  predicate NoSeparator(s: string) {
    forall j :: 0 < j < |s| ==> s[j - 1] != '_' || s[j] != '_'
  }

  /** No part contains the separator, none but the first begins and none but the last ends with an
      underscore. */
  predicate Separable(parts: seq<string>) {
    forall i :: 0 <= i < |parts| ==>
      && NoSeparator(parts[i])
      && (i > 0 && parts[i] != "" ==> parts[i][0] != '_')
      && (i < |parts| - 1 && parts[i] != "" ==> Last(parts[i]) != '_')
  }

  /** No other parts can be read from the end of the name of separable ones. */
  lemma {:induction false} OnlyReading(a: seq<string>, b: seq<string>, i: nat, k: nat)
    requires |a| == |b| && i < |a| && Separable(a)
    requires k <= |JoinParts(a, i)| && JoinParts(b, i) == JoinParts(a, i)[k..]
    ensures k <= |a[i]| && b[i] == a[i][k..] && forall j :: i < j < |a| ==> b[j] == a[j]
    decreases |a| - i
  {
    if i < |a| - 1 {
      var rest, at := JoinParts(a, i + 1), k + |b[i]|;
      SeparatorIsNot(a[i], rest, k, b[i], JoinParts(b, i + 1));
      OnlyReading(a, b, i + 1, at - |a[i]|);
      if at > |a[i]| {
        SeparatorInside(a[i], a[i + 1], rest, at);
      }
    }
  }

  /** The separator after `mine` is found no earlier than the end of `part`. */
  lemma SeparatorIsNot(part: string, rest: string, k: nat, mine: string, others: string)
    requires NoSeparator(part) && (part != "" ==> Last(part) != '_')
    requires var s := part + (SEPARATOR + rest); k <= |s| && s[k..] == mine + (SEPARATOR + others)
    ensures var s, at := part + (SEPARATOR + rest), k + |mine|;
            at + 2 <= |s| && s[at] == s[at + 1] == '_'
    ensures k + |mine| >= |part| && others == rest[k + |mine| - |part|..]
    ensures k + |mine| == |part| ==> mine == part[k..]
  {
    var s, at := part + (SEPARATOR + rest), k + |mine|;
    var tail := mine + (SEPARATOR + others);
    assert tail[|mine|] == '_' && tail[|mine| + 1] == '_';
    assert s[k..][|mine|] == s[at] && s[k..][|mine| + 1] == s[at + 1];
    assert mine == tail[..|mine|] == s[k..at];
    assert others == tail[|mine| + 2..] == s[at + 2..];
    assert s == (part + SEPARATOR) + rest;
  }

  /** Nor does it overlap the separator and the part after it. */
  lemma SeparatorInside(part: string, next: string, rest: string, at: nat)
    requires NoSeparator(next) && (next != "" ==> next[0] != '_') && next <= rest
    requires |part| < at <= |part| + |next| && at + 2 <= |part| + 2 + |rest|
    ensures var s := part + (SEPARATOR + rest); s[at] != '_' || s[at + 1] != '_'
  {
    var s := (part + SEPARATOR) + rest;
    assert s == part + (SEPARATOR + rest);
    assert s[at + 1] == next[at - |part| - 1];
    if at > |part| + 1 {
      assert s[at] == next[at - |part| - 2];
    }
  }

  /** Two neighbours that read the same can be exchanged. */
  lemma {:induction false} NeighboursExchange(parts: seq<string>, i: nat, j: nat, x: string, y: string)
    requires i <= j && j + 1 < |parts| && x + (SEPARATOR + y) == parts[j] + (SEPARATOR + parts[j + 1])
    ensures JoinParts(parts[j := x][j + 1 := y], i) == JoinParts(parts, i)
    decreases j - i
  {
    var b := parts[j := x][j + 1 := y];
    if i < j {
      NeighboursExchange(parts, i + 1, j, x, y);
    } else if j + 2 < |parts| {
      SameTail(b, parts, j + 2);
      var tail := SEPARATOR + JoinParts(parts, j + 2);
      assert JoinParts(b, j) == (x + (SEPARATOR + y)) + tail;
      assert JoinParts(parts, j) == (parts[j] + (SEPARATOR + parts[j + 1])) + tail;
    }
  }

  lemma {:induction false} SameTail(a: seq<string>, b: seq<string>, i: nat)
    requires |a| == |b| && i < |a| && forall j :: i <= j < |a| ==> a[j] == b[j]
    ensures JoinParts(a, i) == JoinParts(b, i)
    decreases |a| - i
  {
    if i < |a| - 1 {
      SameTail(a, b, i + 1);
    }
  }

  /** Parts that are not separable share their name with others. */
  lemma OtherReading(parts: seq<string>) returns (b: seq<string>)
    requires |parts| > 1 && !Separable(parts)
    ensures |b| == |parts| && b != parts && JoinParts(b, 0) == JoinParts(parts, 0)
  {
    var i :| 0 <= i < |parts|
             && !(&& NoSeparator(parts[i])
                  && (i > 0 && parts[i] != "" ==> parts[i][0] != '_')
                  && (i < |parts| - 1 && parts[i] != "" ==> Last(parts[i]) != '_'));
    var k, x, y := Reshape(parts, i);
    NeighboursExchange(parts, 0, k, x, y);
    b := parts[k := x][k + 1 := y];
    assert b[k] != parts[k];
  }

  /** The part at fault with a neighbour, read in another way. */
  lemma Reshape(parts: seq<string>, i: nat) returns (k: nat, x: string, y: string)
    requires |parts| > 1 && i < |parts|
    requires !(&& NoSeparator(parts[i])
               && (i > 0 && parts[i] != "" ==> parts[i][0] != '_')
               && (i < |parts| - 1 && parts[i] != "" ==> Last(parts[i]) != '_'))
    ensures k + 1 < |parts| && x != parts[k] && x + (SEPARATOR + y) == parts[k] + (SEPARATOR + parts[k + 1])
  {
    var part := parts[i];
    if !NoSeparator(part) {
      k, x, y := MoveSeparator(parts, i);
    } else if i > 0 && part != "" && part[0] == '_' {
      k, x, y := i - 1, parts[i - 1] + "_", part[1..];
      assert part == "_" + y;
      assert (parts[i - 1] + "_") + (SEPARATOR + y) == parts[i - 1] + (SEPARATOR + ("_" + y));
    } else {
      k, x, y := i, part[..|part| - 1], "_" + parts[i + 1];
      assert part == x + "_";
      assert x + (SEPARATOR + y) == (x + "_") + (SEPARATOR + parts[i + 1]);
    }
  }

  lemma MoveSeparator(parts: seq<string>, i: nat) returns (k: nat, x: string, y: string)
    requires |parts| > 1 && i < |parts| && !NoSeparator(parts[i])
    ensures k + 1 < |parts| && x != parts[k] && x + (SEPARATOR + y) == parts[k] + (SEPARATOR + parts[k + 1])
  {
    var part := parts[i];
    var j :| 0 < j < |part| && part[j - 1] == part[j] == '_';
    var u, v := part[..j - 1], part[j + 1..];
    assert part == u + (SEPARATOR + v);
    if i < |parts| - 1 {
      k, x, y := i, u, v + (SEPARATOR + parts[i + 1]);
      SeparatorMoves(u, v, parts[i + 1]);
    } else {
      k, x, y := i - 1, parts[i - 1] + (SEPARATOR + u), v;
      SeparatorMoves(parts[i - 1], u, v);
    }
  }

  /** A name can be read in one way only if and only if its parts are separable. */
  lemma SeparableIsExact(parts: seq<string>)
    requires |parts| > 1
    ensures Separable(parts) <==>
              forall b :: |b| == |parts| && JoinParts(b, 0) == JoinParts(parts, 0) ==> b == parts
  {
    if Separable(parts) {
      forall b | |b| == |parts| && JoinParts(b, 0) == JoinParts(parts, 0) ensures b == parts {
        OnlyReading(parts, b, 0, 0);
        assert b == parts;
      }
    } else {
      var b := OtherReading(parts);
    }
  }

  /** One configuration with separable parts is enough: any other shares its name if and only if all their
      sanitized parts are equal. */
  lemma SeparableNameIsExact(a: EmbeddingConfig, b: EmbeddingConfig, other: Lowering)
    requires a.dimension > 0 && b.dimension > 0 && Separable(SanitizeAll(Fields(a), other))
    ensures CollectionName(a, other) == CollectionName(b, other) <==>
              SanitizeAll(Fields(a), other) == SanitizeAll(Fields(b), other)
  {
    SeparableIsExact(SanitizeAll(Fields(a), other));
  }

  /** A separator inside the prefix can be moved into the provider: different prefixes, one name. */
  lemma SeparatorsShareName(a: EmbeddingConfig, b: EmbeddingConfig, p: string, q: string, other: Lowering)
    requires a.dimension > 0 && Sanitized(p) && Sanitized(q) && Sanitized(a.provider) && p != "" && q != "" && a.provider != ""
    requires a.prefix == p + (SEPARATOR + q) && b == a.(prefix := p, provider := q + (SEPARATOR + a.provider))
    ensures Sanitize(a.prefix, other) != Sanitize(b.prefix, other)
    ensures CollectionName(a, other) == CollectionName(b, other)
  {
    JoinStaysSanitized(p, q, other);
    JoinStaysSanitized(q, a.provider, other);
    SeparatorMoves(p, q, a.provider);
    FirstTwoExchange(a, b, other);
  }

  lemma FirstTwoExchange(a: EmbeddingConfig, b: EmbeddingConfig, other: Lowering)
    requires a.dimension > 0 && b == a.(prefix := b.prefix, provider := b.provider)
    requires Sanitize(a.prefix, other) + (SEPARATOR + Sanitize(a.provider, other))
             == Sanitize(b.prefix, other) + (SEPARATOR + Sanitize(b.provider, other))
    ensures CollectionName(a, other) == CollectionName(b, other)
  {
    FirstTwoDiffer(a, b, other);
    NeighboursExchange(SanitizeAll(Fields(a), other), 0, 0, Sanitize(b.prefix, other), Sanitize(b.provider, other));
  }

  lemma FirstTwoDiffer(a: EmbeddingConfig, b: EmbeddingConfig, other: Lowering)
    requires a.dimension > 0 && b == a.(prefix := b.prefix, provider := b.provider)
    ensures SanitizeAll(Fields(b), other) ==
              SanitizeAll(Fields(a), other)[0 := Sanitize(b.prefix, other)][1 := Sanitize(b.provider, other)]
  {
    var x, y := Fields(a), Fields(b);
    forall i | 2 <= i < 6 ensures SanitizeAll(y, other)[i] == SanitizeAll(x, other)[i] {
      assert x[i] == y[i];
    }
  }

  lemma SeparatorMoves(p: string, q: string, r: string)
    ensures p + (SEPARATOR + (q + (SEPARATOR + r))) == (p + (SEPARATOR + q)) + (SEPARATOR + r)
    ensures p + (SEPARATOR + q) != p
  {
    assert |p + (SEPARATOR + q)| > |p|;
  }

  lemma JoinStaysSanitized(p: string, q: string, other: Lowering)
    requires Sanitized(p) && Sanitized(q) && p != "" && q != ""
    ensures Sanitize(p, other) == p && Sanitize(q, other) == q && Sanitize(p + (SEPARATOR + q), other) == p + (SEPARATOR + q)
  {
    SanitizedStays(p, other);
    SanitizedStays(q, other);
    var s := p + (SEPARATOR + q);
    assert s[0] == p[0] && Last(s) == Last(q);
    SanitizedStays(s, other);
  }

  // ----- clean configurations -----

  /** Already sanitized, not empty, without a double underscore and without one at an edge. */
  predicate CleanField(s: string) {
    Sanitized(s) && s != "" && s[0] != '_' && Unambiguous(s)
  }

  predicate Clean(c: EmbeddingConfig) {
    && CleanField(c.prefix) && CleanField(c.provider) && CleanField(c.model)
    && CleanField(c.embeddingVersion) && CleanField(c.chunkingVersion)
    && c.dimension > 0
  }

  /** Sanitizing changes nothing, and the separator cannot be confused with it. */
  predicate CleanPart(s: string) {
    Sanitized(s) && Unambiguous(s)
  }

  lemma LetterKeepsClean(letter: char, s: string)
    requires 'a' <= letter <= 'z' && CleanPart(s) && s != ""
    ensures CleanPart([letter] + s)
  {
    var t := [letter] + s;
    assert Last(t) == Last(s);
    var u := t + "_";
    assert u[1..] == s + "_";
    assert u[..2][0] == letter;
  }

  lemma {:induction false} DigitsAreUnambiguous(s: string)
    requires forall i :: 0 <= i < |s| ==> '0' <= s[i] <= '9'
    ensures Unambiguous(s)
  {
    var t := s + "_";
    if s != "" {
      DigitsAreUnambiguous(s[1..]);
      assert t[1..] == s[1..] + "_";
      assert t[..2][0] == s[0];
    }
  }

  lemma CleanFields(c: EmbeddingConfig, i: nat)
    requires Clean(c) && i < 6
    ensures CleanPart(Fields(c)[i])
  {
    LetterKeepsClean('e', c.embeddingVersion);
    LetterKeepsClean('c', c.chunkingVersion);
    DigitsAreUnambiguous(Decimal(c.dimension));
    LetterKeepsClean('d', Decimal(c.dimension));
  }

  lemma CleanStays(fields: seq<string>, other: Lowering)
    requires forall i :: 0 <= i < |fields| ==> CleanPart(fields[i])
    ensures SanitizeAll(fields, other) == fields && AllUnambiguous(fields)
  {
    forall i | 0 <= i < |fields| ensures SanitizeAll(fields, other)[i] == fields[i] {
      SanitizedStays(fields[i], other);
    }
  }

  /** Recovers all six fields from a name. */
  function ParseName(name: string): Option<EmbeddingConfig> {
    var parts := SplitName(name, 6);
    if |parts| == 6 && parts[3] != "" && parts[4] != "" && parts[5] != "" then
      Some(EmbeddingConfig(parts[0], parts[1], parts[2], Value(parts[5][1..]), parts[3][1..], parts[4][1..]))
    else None
  }

  /** On clean configurations the name determines the configuration. */
  lemma NameRoundTrip(c: EmbeddingConfig, other: Lowering)
    requires Clean(c)
    ensures ParseName(CollectionName(c, other)) == Some(c)
  {
    var fields := Fields(c);
    forall i | 0 <= i < |fields| ensures CleanPart(fields[i]) {
      CleanFields(c, i);
    }
    CleanStays(fields, other);
    SplitJoined(fields, 0);
    assert fields[0..] == fields;
    ValueOfDecimal(c.dimension);
    FieldsParse(c, CollectionName(c, other));
  }

  lemma FieldsParse(c: EmbeddingConfig, name: string)
    requires c.dimension > 0 && SplitName(name, 6) == Fields(c) && Value(Decimal(c.dimension)) == c.dimension
    ensures ParseName(name) == Some(c)
  {
    assert ("d" + Decimal(c.dimension))[1..] == Decimal(c.dimension);
    assert ("e" + c.embeddingVersion)[1..] == c.embeddingVersion && ("c" + c.chunkingVersion)[1..] == c.chunkingVersion;
  }

  lemma NameIsInjective(a: EmbeddingConfig, b: EmbeddingConfig, other: Lowering)
    requires Clean(a) && Clean(b) && CollectionName(a, other) == CollectionName(b, other)
    ensures a == b
  {
    NameRoundTrip(a, other);
    NameRoundTrip(b, other);
  }

  lemma ColonBecomesDash(other: Lowering)
    ensures Sanitize("m:1", other) == "m-1" == Sanitize("m-1", other)
  {
    assert "m:1"[1..] == ":1" && ":1"[1..] == "1" && "1"[1..] == "";
    assert Trim("m:1", IsSpace) == "m:1";
    assert Lower("1", other) == "1" && Lower(":1", other) == ":1" && Lower("m:1", other) == "m:1";
    assert UnsafePrefix(":1") == 1 && Collapse("1") == "1" && Collapse(":1") == "-1" && Collapse("m:1") == "m-1";
    SanitizedStays("m-1", other);
  }

  /** Models that sanitize alike give the same name. */
  lemma ModelsShareName(a: EmbeddingConfig, model: string, other: Lowering)
    requires a.dimension > 0 && Sanitize(a.model, other) == Sanitize(model, other)
    ensures CollectionName(a, other) == CollectionName(a.(model := model), other)
  {
    var x, y := Fields(a), Fields(a.(model := model));
    forall i | 0 <= i < 6 ensures SanitizeAll(x, other)[i] == SanitizeAll(y, other)[i] {
      assert i == 2 || x[i] == y[i];
    }
    assert SanitizeAll(x, other) == SanitizeAll(y, other);
  }

  /** Two valid configurations that differ and share their collection name. */
  lemma DifferentConfigsShareName(other: Lowering) returns (a: EmbeddingConfig, b: EmbeddingConfig)
    ensures a != b && ValidConfig(a) && ValidConfig(b) && CollectionName(a, other) == CollectionName(b, other)
  {
    a := EmbeddingConfig("docs", "p", "m:1", 8, "v1", "v1");
    b := a.(model := "m-1");
    assert a.model[1] != b.model[1];
    assert !IsSpace("docs"[0]) && !IsSpace("p"[0]) && !IsSpace("m:1"[0]) && !IsSpace("m-1"[0]) && !IsSpace("v1"[0]);
    ColonBecomesDash(other);
    ModelsShareName(a, "m-1", other);
  }

  // ----- settings for a build -----

  datatype Settings = Settings(embeddingProvider: string, embeddingModel: Option<string>, ollamaEmbeddingModel: string,
                               vectorSize: int, embeddingVersion: string, chunkingVersion: string,
                               qdrantCollectionName: string, chunkSize: int, chunkOverlap: int)

  /** EMBEDDING_MODEL if set and not empty, else the older setting. */
  function ResolvedEmbeddingModel(s: Settings): string {
    if s.embeddingModel.Some? && s.embeddingModel.value != "" then s.embeddingModel.value else s.ollamaEmbeddingModel
  }

  /** None stands for the error an invalid configuration raises. */
  function GetActiveEmbeddingConfig(s: Settings): Option<EmbeddingConfig> {
    var c := EmbeddingConfig(s.qdrantCollectionName, s.embeddingProvider, ResolvedEmbeddingModel(s), s.vectorSize,
                             s.embeddingVersion, s.chunkingVersion);
    if ValidConfig(c) then Some(c) else None
  }

  function BuildSettingsForTarget(base: Settings, target: EmbeddingConfig, chunkSize: int, chunkOverlap: int): Settings {
    base.(embeddingProvider := target.provider, embeddingModel := Some(target.model), ollamaEmbeddingModel := target.model,
          vectorSize := target.dimension, embeddingVersion := target.embeddingVersion,
          chunkingVersion := target.chunkingVersion, qdrantCollectionName := target.prefix,
          chunkSize := chunkSize, chunkOverlap := chunkOverlap)
  }

  /** The settings of a build resolve to its target whatever the base settings are, so the mismatch check
      before a build never fires; and both model settings agree. */
  lemma BuildResolvesToTarget(base: Settings, target: EmbeddingConfig, chunkSize: int, chunkOverlap: int)
    requires ValidConfig(target)
    ensures var s := BuildSettingsForTarget(base, target, chunkSize, chunkOverlap);
            && GetActiveEmbeddingConfig(s) == Some(target)
            && s.ollamaEmbeddingModel == target.model && s.embeddingModel == Some(target.model)
            && s.chunkSize == chunkSize && s.chunkOverlap == chunkOverlap
  {
  }
}
