/**
  Two readers of /proc/PID/stat: the C scan of
  session-supervisor/src/main.c:232-254 and the Rust split of
  native/src/chroot.rs:647-658.
 */
module ProcStat {
  import opened Common

  const LIMIT: nat := 0x1_0000_0000_0000_0000
  const LINE_MAX: nat := 511  // fgets into line[512]
  const START_TIME: nat := 19

  predicate IsDigit(c: char) {
    '0' <= c <= '9'
  }

  predicate IsSpace(c: char) {
    c == ' ' || '\t' <= c <= '\r'
  }

  datatype Kind = Digit | Space | Blank | NotNewline | NotSpace

  predicate Is(k: Kind, c: char) {
    match k
    case Digit => IsDigit(c)
    case Space => IsSpace(c)
    case Blank => c == ' '
    case NotNewline => c != '\n'
    case NotSpace => !IsSpace(c)
  }

  /** The first position from i on that is not of the kind. */
  function Past(s: string, i: nat, k: Kind): (j: nat)
    requires i <= |s|
    ensures i <= j <= |s|
    decreases |s| - i
  {
    if i < |s| && Is(k, s[i]) then Past(s, i + 1, k) else i
  }

  lemma {:induction false} PastIs(s: string, i: nat, k: Kind, j: nat)
    requires i <= j <= |s| && (forall m :: i <= m < j ==> Is(k, s[m])) && (j < |s| ==> !Is(k, s[j]))
    ensures Past(s, i, k) == j
    decreases j - i
  {
    if i < j {
      PastIs(s, i + 1, k, j);
    }
  }

  /** The decimal number at positions i to j. */
  function Decimal(s: string, i: nat, j: nat): nat
    requires i <= j <= |s|
    decreases j - i
  {
    if i == j then 0
    else Decimal(s, i, j - 1) * 10 + if IsDigit(s[j - 1]) then (s[j - 1] as int - '0' as int) else 0
  }

  lemma {:induction false} DecimalMoves(s: string, i: nat, t: string, j: nat, n: nat)
    requires i + n <= |s| && j + n <= |t| && s[i..i + n] == t[j..j + n]
    ensures Decimal(s, i, i + n) == Decimal(t, j, j + n)
    decreases n
  {
    if n > 0 {
      assert s[i..i + n][..n - 1] == s[i..i + (n - 1)] && t[j..j + n][..n - 1] == t[j..j + (n - 1)];
      DecimalMoves(s, i, t, j, n - 1);
      assert s[i..i + n][n - 1] == s[i + n - 1] && t[j..j + n][n - 1] == t[j + n - 1];
    }
  }

  /* ---------- the C scan ---------- */

  /** Where strtoull finds the first digit: past white space and one sign. */
  function DigitsAt(s: string, i: nat): (d: nat)
    requires i <= |s|
    ensures i <= d <= |s|
  {
    var b := Past(s, i, Space);
    if b < |s| && (s[b] == '+' || s[b] == '-') then b + 1 else b
  }

  /** strtoull's end pointer: unmoved when there is no digit. */
  function StrtoullEnd(s: string, i: nat): (e: nat)
    requires i <= |s|
    ensures i <= e <= |s|
  {
    var d := DigitsAt(s, i);
    var e := Past(s, d, Digit);
    if e == d then i else e
  }

  /** strtoull's value: negated for a minus sign, clamped on overflow. */
  function StrtoullValue(s: string, i: nat): nat
    requires i <= |s|
  {
    var d := DigitsAt(s, i);
    var v := Decimal(s, d, Past(s, d, Digit));
    if v >= LIMIT then LIMIT - 1
    else if d > i && s[d - 1] == '-' && v > 0 then LIMIT - v
    else v
  }

  /** cursor = end + 1, then past blanks. */
  function NextField(s: string, i: nat): (n: nat)
    requires i <= |s| && StrtoullEnd(s, i) < |s|
    ensures i < n <= |s|
  {
    Past(s, StrtoullEnd(s, i) + 1, Blank)
  }

  /** The field loop, `skip` fields before the wanted one; None is a line that ends too early. */
  function Scan(s: string, i: nat, skip: nat): Option<nat>
    requires i <= |s|
    decreases skip
  {
    if skip == 0 then Some(StrtoullValue(s, i))
    else if StrtoullEnd(s, i) == |s| then None
    else Scan(s, NextField(s, i), skip - 1)
  }

  /** Position of the last closing parenthesis, or -1: strrchr. */
  function LastClose(s: string): (i: int)
    ensures -1 <= i < |s|
  {
    if s == "" then -1 else if s[|s| - 1] == ')' then |s| - 1 else LastClose(s[..|s| - 1])
  }

  /** fgets: up to and including the first newline, at most LINE_MAX characters. */
  function FirstLine(file: string): string {
    var n := Past(file, 0, NotNewline);
    var whole := if n < |file| then n + 1 else n;
    file[..if whole < LINE_MAX then whole else LINE_MAX]
  }

  function FieldC(file: string, n: nat): Option<nat> {
    var line := FirstLine(file);
    var close := LastClose(line);
    if close < 0 || close + 2 > |line| then None else Scan(line, close + 2, n)
  }

  /** The field loop of owner_is_alive; n is 19 there. */
  method ScanFields(line: string, fields: nat, n: nat, ownerStartTime: nat) returns (alive: bool)
    requires fields <= |line|
    ensures alive <==> Scan(line, fields, n) == Some(ownerStartTime)
  {
    var cursor: nat, index: nat := fields, 0;
    while true
      invariant index <= n && cursor <= |line|
      invariant Scan(line, cursor, n - index) == Scan(line, fields, n)
      decreases n - index
    {
      var value, end := StrtoullValue(line, cursor), StrtoullEnd(line, cursor);
      if index == n {
        return value == ownerStartTime;
      }
      if end == |line| {
        return false;
      }
      var blank := end + 1;
      ghost var next := NextField(line, cursor);
      while blank < |line| && line[blank] == ' '
        invariant blank <= |line| && Past(line, blank, Blank) == next
      {
        blank := blank + 1;
      }
      cursor := blank;
      index := index + 1;
    }
  }

  /** owner_is_alive, from the file's contents on; the kernel always writes two characters after the name. */
  method OwnerIsAlive(file: string, n: nat, ownerStartTime: nat) returns (alive: bool)
    requires LastClose(FirstLine(file)) >= 0 ==> LastClose(FirstLine(file)) + 2 <= |FirstLine(file)|
    ensures alive <==> FieldC(file, n) == Some(ownerStartTime)
  {
    var line := FirstLine(file);
    var close := LastClose(line);
    if close < 0 {
      return false;
    }
    alive := ScanFields(line, close + 2, n, ownerStartTime);
  }

  /* ---------- the Rust split ---------- */

  /** Position of the last ") ", or -1: rsplit_once. */
  function LastCloseBlank(s: string): (i: int)
    ensures -1 <= i && (i >= 0 ==> i + 1 < |s|)
  {
    if |s| < 2 then -1
    else if s[|s| - 2] == ')' && s[|s| - 1] == ' ' then |s| - 2
    else LastCloseBlank(s[..|s| - 1])
  }

  /** split_whitespace().nth(n), from position i on: its first and last position. */
  function NthField(s: string, i: nat, n: nat): Option<(nat, nat)>
    requires i <= |s|
    decreases n
  {
    var a := Past(s, i, Space);
    var b := Past(s, a, NotSpace);
    if a == |s| then None
    else if n == 0 then Some((a, b))
    else NthField(s, b, n - 1)
  }

  /** str::parse::<u64>: an optional plus sign, then digits only, within range. */
  function ParseU64(s: string, a: nat, b: nat): Option<nat>
    requires a <= b <= |s|
  {
    var d := if a < b && s[a] == '+' then a + 1 else a;
    if d == b || (exists m :: d <= m < b && !IsDigit(s[m])) || Decimal(s, d, b) >= LIMIT then None
    else Some(Decimal(s, d, b))
  }

  lemma {:induction false} NthFieldInRange(s: string, i: nat, n: nat)
    requires i <= |s|
    ensures var r := NthField(s, i, n); r.Some? ==> r.value.0 <= r.value.1 <= |s|
    decreases n
  {
    if n > 0 {
      NthFieldInRange(s, Past(s, Past(s, i, Space), NotSpace), n - 1);
    }
  }

  /** process_start_time, from the file's contents on. */
  function FieldRust(file: string, n: nat): Option<nat> {
    var i := LastCloseBlank(file);
    if i < 0 then None
    else
      var r := NthField(file, i + 2, n);
      NthFieldInRange(file, i + 2, n);
      if r.None? then None else ParseU64(file, r.value.0, r.value.1)
  }

  /* ---------- what the kernel writes ---------- */

  predicate AllDigits(s: string, from: nat) {
    forall i :: from <= i < |s| ==> IsDigit(s[i])
  }

  predicate Numeric(f: string) {
    f != "" && if f[0] == '-' then |f| > 1 && AllDigits(f, 1) else AllDigits(f, 0)
  }

  /** The state letter, then numbers, some of them negative. */
  predicate FieldsOk(fields: seq<string>) {
    && fields != []
    && |fields[0]| == 1 && 'A' <= fields[0][0] <= 'z'
    && forall k :: 1 <= k < |fields| ==> Numeric(fields[k])
  }

  function Blanks(fields: seq<string>): string {
    if fields == [] then "" else if |fields| == 1 then fields[0] + "\n" else fields[0] + " " + Blanks(fields[1..])
  }

  /** The command name may hold anything, parentheses and blanks included; the kernel escapes newlines. */
  function Stat(pid: string, comm: string, fields: seq<string>): string {
    pid + " (" + comm + ") " + Blanks(fields)
  }

  /* ---------- reading it back ---------- */

  lemma FieldClean(fields: seq<string>, k: nat)
    requires FieldsOk(fields) && k < |fields|
    ensures fields[k] != ""
    ensures forall i :: 0 <= i < |fields[k]| ==> !IsSpace(fields[k][i]) && fields[k][i] != ')'
  {
    if k > 0 {
      assert Numeric(fields[k]);
    }
  }

  /** From position i on, the line holds the fields from k on. */
  predicate Rest(s: string, i: nat, fields: seq<string>, k: nat) {
    i <= |s| && k <= |fields| && s[i..] == Blanks(fields[k..])
  }

  lemma {:induction false} FieldHere(s: string, i: nat, fields: seq<string>, k: nat)
    requires FieldsOk(fields) && k < |fields| && Rest(s, i, fields, k)
    ensures var e := i + |fields[k]|;
      && i < e < |s| && s[i..e] == fields[k] && IsSpace(s[e])
      && (k + 1 < |fields| ==> s[e] == ' ' && Rest(s, e + 1, fields, k + 1) && e + 1 < |s| && !IsSpace(s[e + 1]))
    ensures !IsSpace(s[i])
  {
    FieldClean(fields, k);
    var f := fields[k];
    var e := i + |f|;
    assert fields[k..][1..] == fields[k + 1..];
    assert s[i..][..|f|] == f && s[i..][|f|] == s[e];
    assert s[i..e] == f && s[i] == f[0];
    if k + 1 < |fields| {
      assert s[i..] == f + " " + Blanks(fields[k + 1..]);
      assert s[e + 1..] == s[i..][|f| + 1..] == Blanks(fields[k + 1..]);
      FieldClean(fields, k + 1);
      assert fields[k + 1..][0] == fields[k + 1];
      assert s[e + 1] == s[e + 1..][0] == fields[k + 1][0];
    }
  }

  lemma FieldChars(s: string, i: nat, f: string)
    requires i + |f| <= |s| && s[i..i + |f|] == f
    ensures forall m :: i <= m < i + |f| ==> s[m] == f[m - i]
  {
    forall m | i <= m < i + |f|
      ensures s[m] == f[m - i]
    {
      assert s[i..i + |f|][m - i] == s[m];
    }
  }

  /** strtoull stops right after a number, and does not move on the state letter. */
  lemma {:induction false} StrtoullHere(s: string, i: nat, fields: seq<string>, k: nat)
    requires FieldsOk(fields) && k < |fields| && Rest(s, i, fields, k)
    ensures var e := i + |fields[k]|; StrtoullEnd(s, i) == if k == 0 then i else e
    ensures k > 0 && fields[k][0] != '-' ==>
      DigitsAt(s, i) == i && Past(s, i, Digit) == i + |fields[k]|
  {
    FieldHere(s, i, fields, k);
    var f := fields[k];
    FieldChars(s, i, f);
    PastIs(s, i, Space, i);
    if k == 0 {
      PastIs(s, i, Digit, i);
    } else {
      assert Numeric(f);
      var d := if f[0] == '-' then i + 1 else i;
      assert DigitsAt(s, i) == d;
      PastIs(s, d, Digit, i + |f|);
    }
  }

  lemma {:induction false} ValueHere(s: string, i: nat, fields: seq<string>, k: nat)
    requires FieldsOk(fields) && 0 < k < |fields| && Rest(s, i, fields, k)
    requires fields[k][0] != '-' && Decimal(fields[k], 0, |fields[k]|) < LIMIT
    ensures StrtoullValue(s, i) == Decimal(fields[k], 0, |fields[k]|)
  {
    FieldHere(s, i, fields, k);
    StrtoullHere(s, i, fields, k);
    var f := fields[k];
    assert f[0..0 + |f|] == f;
    DecimalMoves(s, i, f, 0, |f|);
  }

  lemma {:induction false} NextHere(s: string, i: nat, fields: seq<string>, k: nat)
    requires FieldsOk(fields) && k + 1 < |fields| && Rest(s, i, fields, k)
    ensures StrtoullEnd(s, i) < |s| && NextField(s, i) == i + |fields[k]| + 1
  {
    FieldHere(s, i, fields, k);
    StrtoullHere(s, i, fields, k);
    var e := i + |fields[k]|;
    PastIs(s, e + 1, Blank, e + 1);
    if k == 0 {
      PastIs(s, i + 1, Blank, e + 1);
    }
  }

  /** The C loop reaches field n wherever it starts. */
  lemma {:induction false} ScanReads(s: string, i: nat, fields: seq<string>, k: nat, n: nat)
    requires FieldsOk(fields) && k <= n < |fields| && n > 0 && Rest(s, i, fields, k)
    requires fields[n][0] != '-' && Decimal(fields[n], 0, |fields[n]|) < LIMIT
    ensures Scan(s, i, n - k) == Some(Decimal(fields[n], 0, |fields[n]|))
    decreases n - k
  {
    if k == n {
      ValueHere(s, i, fields, k);
    } else {
      NextHere(s, i, fields, k);
      FieldHere(s, i, fields, k);
      ScanReads(s, i + |fields[k]| + 1, fields, k + 1, n);
    }
  }

  /** The Rust iterator yields field n as a slice, from the field or the blank before it. */
  lemma {:induction false} SplitYields(s: string, j: nat, i: nat, fields: seq<string>, k: nat, n: nat)
    requires FieldsOk(fields) && k <= n < |fields| && Rest(s, i, fields, k)
    requires j <= i && (forall m :: j <= m < i ==> IsSpace(s[m]))
    ensures IsSlice(s, NthField(s, j, n - k), fields[n])
    decreases n - k
  {
    FieldHere(s, i, fields, k);
    if k == n {
      SplitFirst(s, j, i, fields, k);
    } else {
      var e := i + |fields[k]|;
      SplitYields(s, e, e + 1, fields, k + 1, n);
      SplitOver(s, j, i, fields, k, n - k);
    }
  }

  lemma {:induction false} SplitFirst(s: string, j: nat, i: nat, fields: seq<string>, k: nat)
    requires FieldsOk(fields) && k < |fields| && Rest(s, i, fields, k)
    requires j <= i && (forall m :: j <= m < i ==> IsSpace(s[m]))
    ensures IsSlice(s, NthField(s, j, 0), fields[k])
  {
    FieldEnds(s, j, i, fields, k);
    NthStep(s, j, 0, i, i + |fields[k]|);
  }

  lemma {:induction false} SplitOver(s: string, j: nat, i: nat, fields: seq<string>, k: nat, n: nat)
    requires FieldsOk(fields) && k < |fields| && Rest(s, i, fields, k) && n > 0
    requires j <= i && (forall m :: j <= m < i ==> IsSpace(s[m]))
    ensures i + |fields[k]| <= |s| && NthField(s, j, n) == NthField(s, i + |fields[k]|, n - 1)
  {
    FieldEnds(s, j, i, fields, k);
    NthStep(s, j, n, i, i + |fields[k]|);
  }

  /** The slice `r` of `s` is `f`. */
  predicate IsSlice(s: string, r: Option<(nat, nat)>, f: string) {
    r.Some? && r.value.0 + |f| == r.value.1 <= |s| && s[r.value.0..r.value.1] == f
  }

  lemma {:induction false} NthStep(s: string, j: nat, n: nat, a: nat, b: nat)
    requires j <= |s| && Past(s, j, Space) == a < |s| && Past(s, a, NotSpace) == b
    ensures NthField(s, j, n) == if n == 0 then Some((a, b)) else NthField(s, b, n - 1)
  {
  }

  /** Skipping blanks and then the field, as the iterator does. */
  lemma {:induction false} FieldEnds(s: string, j: nat, i: nat, fields: seq<string>, k: nat)
    requires FieldsOk(fields) && k < |fields| && Rest(s, i, fields, k)
    requires j <= i && (forall m :: j <= m < i ==> IsSpace(s[m]))
    ensures
      var e := i + |fields[k]|;
      && j <= i < e < |s| && s[i..e] == fields[k] && IsSpace(s[e])
      && Past(s, j, Space) == i && Past(s, i, NotSpace) == e
      && (k + 1 < |fields| ==> Rest(s, e + 1, fields, k + 1))
  {
    FieldHere(s, i, fields, k);
    FieldClean(fields, k);
    FieldChars(s, i, fields[k]);
    PastIs(s, j, Space, i);
    PastIs(s, i, NotSpace, i + |fields[k]|);
  }

  lemma {:induction false} ParseReads(s: string, a: nat, f: string)
    requires a + |f| <= |s| && s[a..a + |f|] == f && f != "" && AllDigits(f, 0) && Decimal(f, 0, |f|) < LIMIT
    ensures ParseU64(s, a, a + |f|) == Some(Decimal(f, 0, |f|))
  {
    FieldChars(s, a, f);
    assert f[0..0 + |f|] == f;
    DecimalMoves(s, a, f, 0, |f|);
    assert IsDigit(s[a]);
  }

  lemma {:induction false} LastCloseAt(a: string, b: string)
    requires ')' !in b
    ensures LastClose(a + ")" + b) == |a|
    decreases b
  {
    var s := a + ")" + b;
    if b == "" {
      assert s == a + ")";
    } else {
      LastCloseAt(a, b[..|b| - 1]);
      assert s[..|s| - 1] == a + ")" + b[..|b| - 1];
      assert s[|s| - 1] == b[|b| - 1] && b[|b| - 1] in b;
    }
  }

  lemma {:induction false} LastCloseBlankAt(a: string, b: string)
    requires ')' !in b
    ensures LastCloseBlank(a + ") " + b) == |a|
    decreases b
  {
    var s := a + ") " + b;
    if b == "" {
      assert s == a + ") ";
    } else {
      LastCloseBlankAt(a, b[..|b| - 1]);
      assert s[..|s| - 1] == a + ") " + b[..|b| - 1];
      assert s[|s| - 2] != ')' by {
        if |b| > 1 {
          assert s[|s| - 2] == b[|b| - 2] && b[|b| - 2] in b;
        }
      }
    }
  }

  lemma {:induction false} BlanksClean(fields: seq<string>, k: nat)
    requires FieldsOk(fields) && k < |fields|
    ensures var t := Blanks(fields[k..]);
      ')' !in t && |t| > 0 && t[|t| - 1] == '\n' && forall i :: 0 <= i < |t| - 1 ==> t[i] != '\n'
    decreases |fields| - k
  {
    FieldClean(fields, k);
    assert fields[k..][1..] == fields[k + 1..] && fields[k..][0] == fields[k];
    if k + 1 < |fields| {
      BlanksClean(fields, k + 1);
    }
  }

  /** A line the kernel can write that fits the C buffer, with an unsigned 64-bit field n. */
  predicate Readable(pid: string, comm: string, fields: seq<string>, n: nat) {
    && FieldsOk(fields) && 0 < n < |fields|
    && fields[n][0] != '-' && Decimal(fields[n], 0, |fields[n]|) < LIMIT
    && '\n' !in pid && '\n' !in comm
    && |Stat(pid, comm, fields)| <= LINE_MAX
  }

  lemma {:induction false} StatIsOneLine(pid: string, comm: string, fields: seq<string>, n: nat)
    requires Readable(pid, comm, fields, n)
    ensures FirstLine(Stat(pid, comm, fields)) == Stat(pid, comm, fields)
  {
    var s := Stat(pid, comm, fields);
    BlanksClean(fields, 0);
    assert fields[0..] == fields;
    var head := pid + " (" + comm + ") ";
    assert s == head + Blanks(fields);
    forall m | 0 <= m < |s| - 1
      ensures s[m] != '\n'
    {
      if m >= |head| {
        assert s[m] == Blanks(fields)[m - |head|];
      } else {
        assert s[m] == head[m] && head[m] in head;
      }
    }
    assert s[|s| - 1] == Blanks(fields)[|Blanks(fields)| - 1];
    PastIs(s, 0, NotNewline, |s| - 1);
    assert s[..|s|] == s;
  }

  lemma {:induction false} StatSplits(pid: string, comm: string, fields: seq<string>, n: nat)
    requires Readable(pid, comm, fields, n)
    ensures var s := Stat(pid, comm, fields); var close := |pid + " (" + comm|;
      LastClose(s) == close && LastCloseBlank(s) == close && close + 2 <= |s| && Rest(s, close + 2, fields, 0)
  {
    var s, a := Stat(pid, comm, fields), pid + " (" + comm;
    BlanksClean(fields, 0);
    assert fields[0..] == fields;
    assert s == a + ") " + Blanks(fields);
    ClosesAt(a, Blanks(fields));
    assert s[|a| + 2..] == Blanks(fields);
  }

  /** Both ways of finding the end of the name find the same place. */
  lemma {:induction false} ClosesAt(a: string, b: string)
    requires ')' !in b
    ensures LastClose(a + ") " + b) == |a| && LastCloseBlank(a + ") " + b) == |a|
  {
    LastCloseBlankAt(a, b);
    assert ')' !in " " + b;
    LastCloseAt(a, " " + b);
    assert a + ") " + b == a + ")" + (" " + b);
  }

  lemma {:induction false} ReadByC(s: string, close: nat, n: nat, v: nat)
    requires FirstLine(s) == s && LastClose(s) == close && close + 2 <= |s| && Scan(s, close + 2, n) == Some(v)
    ensures FieldC(s, n) == Some(v)
  {
  }

  lemma {:induction false} ReadByRust(s: string, close: nat, n: nat, f: string)
    requires LastCloseBlank(s) == close && close + 2 <= |s| && IsSlice(s, NthField(s, close + 2, n), f)
    requires f != "" && AllDigits(f, 0) && Decimal(f, 0, |f|) < LIMIT
    ensures FieldRust(s, n) == Some(Decimal(f, 0, |f|))
  {
    ParseReads(s, NthField(s, close + 2, n).value.0, f);
  }

  ghost predicate Parsed(s: string, close: nat, fields: seq<string>) {
    && FirstLine(s) == s && LastClose(s) == close && LastCloseBlank(s) == close
    && close + 2 <= |s| && Rest(s, close + 2, fields, 0)
  }

  lemma {:induction false} BothRead(s: string, close: nat, fields: seq<string>, n: nat)
    requires Parsed(s, close, fields) && FieldsOk(fields) && 0 < n < |fields|
    requires fields[n][0] != '-' && Decimal(fields[n], 0, |fields[n]|) < LIMIT
    ensures FieldC(s, n) == FieldRust(s, n) == Some(Decimal(fields[n], 0, |fields[n]|))
  {
    CReads(s, close, fields, n);
    RustReads(s, close, fields, n);
  }

  lemma {:induction false} CReads(s: string, close: nat, fields: seq<string>, n: nat)
    requires FirstLine(s) == s && LastClose(s) == close && close + 2 <= |s| && Rest(s, close + 2, fields, 0)
    requires FieldsOk(fields) && 0 < n < |fields|
    requires fields[n][0] != '-' && Decimal(fields[n], 0, |fields[n]|) < LIMIT
    ensures FieldC(s, n) == Some(Decimal(fields[n], 0, |fields[n]|))
  {
    var at, v := close + 2, Decimal(fields[n], 0, |fields[n]|);
    ScanReads(s, at, fields, 0, n);
    assert n - 0 == n;
    ReadByC(s, close, n, v);
  }

  lemma {:induction false} RustReads(s: string, close: nat, fields: seq<string>, n: nat)
    requires Parsed(s, close, fields) && FieldsOk(fields) && 0 < n < |fields|
    requires fields[n][0] != '-' && Decimal(fields[n], 0, |fields[n]|) < LIMIT
    ensures FieldRust(s, n) == Some(Decimal(fields[n], 0, |fields[n]|))
  {
    SplitYields(s, close + 2, close + 2, fields, 0, n);
    assert Numeric(fields[n]);
    ReadByRust(s, close, n, fields[n]);
  }

  /** Whatever the command name contains, both readers see the same number: the field itself. */
  lemma {:induction false} ReadersAgree(pid: string, comm: string, fields: seq<string>, n: nat)
    requires Readable(pid, comm, fields, n)
    ensures var s := Stat(pid, comm, fields);
      FieldC(s, n) == FieldRust(s, n) == Some(Decimal(fields[n], 0, |fields[n]|))
  {
    var s, close := Stat(pid, comm, fields), |pid + " (" + comm|;
    StatIsOneLine(pid, comm, fields, n);
    StatSplits(pid, comm, fields, n);
    BothRead(s, close, fields, n);
  }

  /** Field `n` of a line, as a number. */
  function FieldValue(fields: seq<string>, n: nat): nat
    requires FieldsOk(fields) && n < |fields|
  {
    Decimal(fields[n], 0, |fields[n]|)
  }

  /**
    The launcher reads one line of the process, the supervisor later another:
    name, state, times and sizes may all have changed. The owner is judged
    alive exactly if the two start times are the same, so a live owner is never
    taken for gone and a process that took over its number is.
   */
  method SuperviseOwner(pid: string, commThen: string, fieldsThen: seq<string>, commNow: string, fieldsNow: seq<string>)
    returns (alive: bool)
    requires Readable(pid, commThen, fieldsThen, START_TIME) && Readable(pid, commNow, fieldsNow, START_TIME)
    ensures alive <==> FieldValue(fieldsThen, START_TIME) == FieldValue(fieldsNow, START_TIME)
  {
    ReadersAgree(pid, commThen, fieldsThen, START_TIME);
    var launched := FieldRust(Stat(pid, commThen, fieldsThen), START_TIME);
    var stat := Stat(pid, commNow, fieldsNow);
    StatIsOneLine(pid, commNow, fieldsNow, START_TIME);
    StatSplits(pid, commNow, fieldsNow, START_TIME);
    ReadersAgree(pid, commNow, fieldsNow, START_TIME);
    alive := OwnerIsAlive(stat, START_TIME, launched.value);
  }
}
