/** The pattern decoder of `load.js`: a run-length text grammar parsed on
    three nested stacks, a rectangularisation pass, the shell-coefficient
    parser and the lookup of catalogue entries. */
module PatternCodec {
  import opened Wrappers
  import opened SeqUtil
  import opened Values

  type Row = seq<real>
  type Plane = seq<Row>
  type Cube = seq<Plane>

  /** `DIM_DELIM` in key order: the token that closes level k. */
  const Delims: seq<string> := ["", "$", "%", "#", "@A", "@B", "@C", "@D", "@E", "@F"]

  /** Characters that are kept as a pending prefix of the next token. */
  const Prefixes: string := "pqrstuvwxy@"

  /** `delims.indexOf(tok)`, with -1 as `None`. */
  function DelimLevel(tok: string): (r: Option<nat>)
    ensures r.None? <==> tok !in Delims
    ensures r.Some? ==> r.value < |Delims| && Delims[r.value] == tok
  {
    if tok == "" then Some(0)
    else if tok == "$" then Some(1)
    else if tok == "%" then Some(2)
    else if tok == "#" then Some(3)
    else if tok == "@A" then Some(4)
    else if tok == "@B" then Some(5)
    else if tok == "@C" then Some(6)
    else if tok == "@D" then Some(7)
    else if tok == "@E" then Some(8)
    else if tok == "@F" then Some(9)
    else None
  }

  /** `ch2val`: the cell value (0..255 for the documented alphabet) of a one-
      or two-character token. Nothing is rejected. */
  function Ch2Val(c: string): (r: int)
    requires 1 <= |c| <= 2
    ensures |c| == 1 && 'A' <= c[0] <= 'Y' ==> 1 <= r <= 25
    ensures IsExtendedToken(c) ==> 25 <= r <= 264
  {
    if c == "." || c == "b" then 0
    else if c == "o" then 255
    else if |c| == 1 then c[0] as int - 'A' as int + 1
    else (c[0] as int - 'p' as int) * 24 + (c[1] as int - 'A' as int + 25)
  }

  /** The fixed part of the alphabet and the single-character formula. */
  lemma Ch2ValSingle(c: char)
    ensures Ch2Val(".") == 0 && Ch2Val("b") == 0 && Ch2Val("o") == 255
    ensures c != '.' && c != 'b' && c != 'o' ==> Ch2Val([c]) == c as int - 'A' as int + 1
    ensures 'A' <= c <= 'Y' ==> 1 <= Ch2Val([c]) <= 25
  {
  }

  predicate IsExtendedToken(t: string) {
    |t| == 2 && 'p' <= t[0] <= 'y' && 'A' <= t[1] <= 'X'
  }

  /** Lexicographic order on two-letter tokens. */
  predicate TokenLess(t: string, u: string)
    requires |t| == 2 && |u| == 2
  {
    t[0] < u[0] || (t[0] == u[0] && t[1] < u[1])
  }

  /** The two-letter tokens `pA`..`yX` map into 25..264, strictly increasing
      in lexicographic order. */
  lemma ExtendedTokensIncreasing(t: string, u: string)
    requires IsExtendedToken(t) && IsExtendedToken(u)
    ensures 25 <= Ch2Val(t) <= 264
    ensures TokenLess(t, u) ==> Ch2Val(t) < Ch2Val(u)
  {
  }

  /** The two-letter token whose value is `v`. */
  function ExtendedToken(v: int): (t: string)
    requires 25 <= v <= 264
    ensures IsExtendedToken(t)
  {
    [(('p' as int) + (v - 25) / 24) as char, (('A' as int) + (v - 25) % 24) as char]
  }

  /** Every value in 25..264 is hit by exactly one two-letter token. */
  lemma {:induction false} ExtendedTokensOnto(v: int, t: string)
    requires 25 <= v <= 264
    requires IsExtendedToken(t)
    ensures Ch2Val(ExtendedToken(v)) == v
    ensures Ch2Val(t) == v <==> t == ExtendedToken(v)
  {
    var e := ExtendedToken(v);
    var q, r := (v - 25) / 24, (v - 25) % 24;
    assert v - 25 == q * 24 + r;
    assert e[0] as int - 'p' as int == q && e[1] as int - 'A' as int == r;
    if Ch2Val(t) == v {
      var a, b := t[0] as int - 'p' as int, t[1] as int - 'A' as int;
      assert a * 24 + b == q * 24 + r;
      assert 0 <= b < 24 && 0 <= r < 24;
      assert a == q && b == r;
      assert t[0] == e[0] && t[1] == e[1];
      assert t == e;
    }
  }

  // ---------------------------------------------------------------------
  // The three stacks of `rle2arr`.

  datatype Stacks = Stacks(run: Row, rows: Plane, planes: Cube)

  /** The loop state of `rle2arr`: the stacks, the pending prefix `last` and
      the digits of the pending repeat `count`. */
  datatype ParseState = ParseState(stacks: Stacks, last: string, count: string)

  predicate WellFormed(s: ParseState) {
    (s.last == "" || (|s.last| == 1 && s.last[0] in Prefixes)) && AllDigits(s.count)
  }

  const Initial: ParseState := ParseState(Stacks([], [], []), "", "")

  /** How many copies `_append_stack` pushes after the first: `parseInt(count) - 1`
      loop iterations, none when the count is empty. */
  function ExtraCopies(count: string): nat
    requires AllDigits(count)
  {
    if count == "" || DigitsValue(count) == 0 then 0 else DigitsValue(count) - 1
  }

  /** The list `_append_stack(list1, item, count)` leaves: `item`, then
      `ExtraCopies(count)` copies of `repeated`. */
  function Appended<T>(list1: seq<T>, item: T, repeated: T, count: string): seq<T>
    requires AllDigits(count)
  {
    list1 + [item] + Repeat(repeated, ExtraCopies(count))
  }

  /** `_append_stack`: push `item`, then push `repeated` `parseInt(count) - 1` times. */
  method AppendStack<T>(list1: seq<T>, item: T, count: string, repeated: T) returns (r: seq<T>)
    requires AllDigits(count)
    ensures r == Appended(list1, item, repeated, count)
  {
    r := list1 + [item];
    if count != "" {
      var n := DigitsValue(count) as int;
      var i := 0;
      while i < n - 1
        invariant 0 <= i <= (if n >= 1 then n - 1 else 0)
        invariant r == list1 + [item] + Repeat(repeated, i)
      {
        r := r + [repeated];
        i := i + 1;
      }
    }
  }

  /** How many copies of a value token land in the level-0 run. */
  function Copies(count: string): nat
    requires AllDigits(count)
  {
    if count == "" then 1 else Max(DigitsValue(count), 1)
  }

  /** A value token with count c appends max(c, 1) copies of its value:
      a count of "0" or "" still pushes once. */
  lemma {:induction false} AppendedValueCopies(run: Row, v: real, count: string)
    requires AllDigits(count)
    ensures Appended(run, v, v, count) == run + Repeat(v, Copies(count))
    ensures Copies(count) >= 1
  {
    var a := Appended(run, v, v, count);
    var b := run + Repeat(v, Copies(count));
    assert |a| == |b|;
    forall i | 0 <= i < |a| ensures a[i] == b[i] {
      if i >= |run| {
        assert a[i] == v;
      }
    }
  }

  /** Level `d`'s run is pushed one level up and level `d` is cleared. */
  function FlushLevel(st: Stacks, count: string, d: nat): Stacks
    requires AllDigits(count)
    requires d <= 1
  {
    if d == 0 then Stacks([], Appended(st.rows, st.run, [], count), st.planes)
    else Stacks(st.run, [], Appended(st.planes, st.rows, [], count))
  }

  /** The stacks after the delimiter loop has handled levels 0 .. k-1. */
  function FlushLevels(st: Stacks, count: string, k: nat): Stacks
    requires AllDigits(count)
    requires k <= 2
  {
    if k == 0 then st else FlushLevel(FlushLevels(st, count, k - 1), count, k - 1)
  }

  /** One iteration of the character loop of `rle2arr`. Level 3 and higher
      delimiters reach `stacks[3]`, which does not exist. */
  function Step(s: ParseState, ch: char): (r: Result<ParseState>)
    requires WellFormed(s)
  {
    if IsDigit(ch) then Ok(s.(count := s.count + [ch]))
    else if ch in Prefixes then Ok(s.(last := [ch]))
    else
      var tok := s.last + [ch];
      match DelimLevel(tok)
      case None =>
        var v := Ch2Val(tok) as real / 255.0;
        Ok(ParseState(s.stacks.(run := Appended(s.stacks.run, v, v, s.count)), "", ""))
      case Some(k) =>
        if k <= 2 then Ok(ParseState(FlushLevels(s.stacks, s.count, k), "", ""))
        else Err("stacks[3] is undefined")
  }

  lemma StepWellFormed(s: ParseState, ch: char)
    requires WellFormed(s)
    ensures Step(s, ch).Ok? ==> WellFormed(Step(s, ch).value)
  {
    if IsDigit(ch) {
      var c := s.count + [ch];
      assert forall i :: 0 <= i < |c| ==> IsDigit(c[i]);
    }
  }

  /** The state after the loop has consumed `input`, or the error it threw. */
  function Scan(input: string): (r: Result<ParseState>)
    ensures r.Ok? ==> WellFormed(r.value)
    decreases |input|
  {
    if input == [] then Ok(Initial)
    else match Scan(input[..|input| - 1])
      case Err(e) => Err(e)
      case Ok(s) => StepWellFormed(s, input[|input| - 1]); Step(s, input[|input| - 1])
  }

  /** Once the loop has thrown, the decoder fails. */
  lemma {:induction false} ScanErrStays(input: string, i: nat)
    requires i <= |input|
    requires Scan(input[..i]).Err?
    ensures Scan(input) == Scan(input[..i])
    decreases |input| - i
  {
    if i < |input| {
      assert input[..i + 1][..i] == input[..i];
      ScanErrStays(input, i + 1);
    } else {
      assert input[..i] == input;
    }
  }

  /** One trailing `!` is removed and the level-2 delimiter appended. */
  function Prepare(st: string): (r: string)
    ensures |r| >= 1 && r[|r| - 1] == '%'
    ensures r[..|r| - 1] == if |st| > 0 && st[|st| - 1] == '!' then st[..|st| - 1] else st
  {
    (if |st| > 0 && st[|st| - 1] == '!' then st[..|st| - 1] else st) + "%"
  }

  // ---------------------------------------------------------------------
  // Rectangularisation.

  /** The largest length among the lists of `s` (0 when there is none). */
  function MaxLen<T>(s: seq<seq<T>>): (m: nat)
    ensures forall i :: 0 <= i < |s| ==> |s[i]| <= m
    ensures |s| == 0 ==> m == 0
    ensures |s| > 0 ==> exists i :: 0 <= i < |s| && |s[i]| == m
  {
    if s == [] then 0 else Max(MaxLen(s[..|s| - 1]), |s[|s| - 1]|)
  }

  /** The largest length among all rows of all planes (0 when there is none). */
  function MaxRowLen(a: Cube): (m: nat)
    ensures forall i, j :: 0 <= i < |a| && 0 <= j < |a[i]| ==> |a[i][j]| <= m
    ensures m > 0 ==> exists i, j :: 0 <= i < |a| && 0 <= j < |a[i]| && |a[i][j]| == m
  {
    if a == [] then 0 else
      var prev := MaxRowLen(a[..|a| - 1]);
      var last := MaxLen(a[|a| - 1]);
      assert forall i :: 0 <= i < |a| - 1 ==> a[..|a| - 1][i] == a[i];
      Max(prev, last)
  }

  /** `max_lens` after `_recur_get_max_lens(0, A, max_lens)`: the largest
      length at each depth. */
  datatype Lens = Lens(planes: nat, rows: nat, cells: nat)

  function MaxLens(a: Cube): (r: Lens)
    ensures r.planes == |a|
    ensures forall i :: 0 <= i < |a| ==> |a[i]| <= r.rows
    ensures forall i, j :: 0 <= i < |a| && 0 <= j < |a[i]| ==> |a[i][j]| <= r.cells
    ensures r.rows > 0 ==> exists i :: 0 <= i < |a| && |a[i]| == r.rows
  {
    Lens(|a|, MaxLen(a), MaxRowLen(a))
  }

  /** `_recur_get_max_lens`, with its recursion over the three depths
      written as nested loops. */
  method GetMaxLens(a: Cube) returns (ml: Lens)
    ensures ml == MaxLens(a)
  {
    var l0, l1, l2 := 0, 0, 0;
    l0 := Max(l0, |a|);
    var i := 0;
    while i < |a|
      invariant 0 <= i <= |a|
      invariant l1 == MaxLen(a[..i]) && l2 == MaxRowLen(a[..i])
    {
      assert a[..i + 1][..i] == a[..i];
      l1 := Max(l1, |a[i]|);
      var j := 0;
      while j < |a[i]|
        invariant 0 <= j <= |a[i]|
        invariant l2 == Max(MaxRowLen(a[..i]), MaxLen(a[i][..j]))
      {
        assert a[i][..j + 1][..j] == a[i][..j];
        l2 := Max(l2, |a[i][j]|);
        j := j + 1;
      }
      assert a[i][..j] == a[i];
      assert a[..i + 1][i] == a[i];
      i := i + 1;
    }
    assert a[..i] == a;
    ml := Lens(l0, l1, l2);
  }

  /** A level-2 list padded with zeros. */
  function CubifiedRow(r: Row, ml: Lens): Row {
    PadTo(r, 0.0, ml.cells)
  }

  /** A level-1 list padded with empty rows, each row then padded. */
  function CubifiedPlane(p: Plane, ml: Lens): (q: Plane)
    ensures |q| == if ml.rows > |p| then ml.rows else |p|
  {
    var padded := PadTo(p, [], ml.rows);
    seq(|padded|, j requires 0 <= j < |padded| => CubifiedRow(padded[j], ml))
  }

  /** `_recur_cubify(0, A, max_lens)`. */
  function Cubified(a: Cube, ml: Lens): (c: Cube)
    ensures |c| == if ml.planes > |a| then ml.planes else |a|
  {
    var padded := PadTo(a, [], ml.planes);
    seq(|padded|, i requires 0 <= i < |padded| => CubifiedPlane(padded[i], ml))
  }

  /** Depth-2 padding of one row: push `0` until the row is `ml.cells` long. */
  method CubifyRow(r: Row, ml: Lens) returns (out: Row)
    ensures out == CubifiedRow(r, ml)
  {
    out := r;
    var more := ml.cells - |r|;
    var i := 0;
    while i < more
      invariant 0 <= i <= Max(more, 0)
      invariant out == r + Repeat(0.0, i)
    {
      out := out + [0.0];
      i := i + 1;
    }
  }

  /** Depth-1 padding: push `[]` rows, then recurse into every row. */
  method CubifyPlane(p: Plane, ml: Lens) returns (out: Plane)
    ensures out == CubifiedPlane(p, ml)
  {
    out := p;
    var more := ml.rows - |p|;
    var i := 0;
    while i < more
      invariant 0 <= i <= Max(more, 0)
      invariant out == p + Repeat([], i)
    {
      out := out + [[]];
      i := i + 1;
    }
    ghost var padded := out;
    assert padded == PadTo(p, [], ml.rows);
    var j := 0;
    while j < |out|
      invariant |out| == |padded| && 0 <= j <= |out|
      invariant forall k :: 0 <= k < j ==> out[k] == CubifiedRow(padded[k], ml)
      invariant forall k :: j <= k < |out| ==> out[k] == padded[k]
    {
      var row := CubifyRow(out[j], ml);
      out := out[j := row];
      j := j + 1;
    }
  }

  /** `_recur_cubify(0, A, max_lens)` as the source runs it. */
  method Cubify(a: Cube, ml: Lens) returns (out: Cube)
    ensures out == Cubified(a, ml)
  {
    out := a;
    var more := ml.planes - |a|;
    var i := 0;
    while i < more
      invariant 0 <= i <= Max(more, 0)
      invariant out == a + Repeat([], i)
    {
      out := out + [[]];
      i := i + 1;
    }
    ghost var padded := out;
    assert padded == PadTo(a, [], ml.planes);
    var j := 0;
    while j < |out|
      invariant |out| == |padded| && 0 <= j <= |out|
      invariant forall k :: 0 <= k < j ==> out[k] == CubifiedPlane(padded[k], ml)
      invariant forall k :: j <= k < |out| ==> out[k] == padded[k]
    {
      var plane := CubifyPlane(out[j], ml);
      out := out[j := plane];
      j := j + 1;
    }
  }

  /** Every plane has `d1` rows and every row `d2` cells. */
  predicate IsBox(c: Cube, d1: nat, d2: nat) {
    forall i :: 0 <= i < |c| ==> |c[i]| == d1 && forall j :: 0 <= j < |c[i]| ==> |c[i][j]| == d2
  }

  /** After rectangularisation every list at a depth has that depth's maximum
      length; existing entries stay where they were and every added cell is 0. */
  lemma CubifiedShape(a: Cube)
    ensures var ml := MaxLens(a); var c := Cubified(a, ml);
      |c| == |a| && IsBox(c, ml.rows, ml.cells)
      && (forall i, j, k :: 0 <= i < |a| && 0 <= j < |a[i]| && 0 <= k < |a[i][j]| ==> c[i][j][k] == a[i][j][k])
      && (forall i, j, k :: (0 <= i < |a| && 0 <= j < ml.rows && 0 <= k < ml.cells
            && (j >= |a[i]| || k >= |a[i][j]|)) ==> c[i][j][k] == 0.0)
  {
    var ml := MaxLens(a);
    var c := Cubified(a, ml);
    forall i, j, k | 0 <= i < |a| && 0 <= j < ml.rows && 0 <= k < ml.cells && (j >= |a[i]| || k >= |a[i][j]|)
      ensures c[i][j][k] == 0.0
    {
      var padded := PadTo(a[i], [], ml.rows);
      if j >= |a[i]| { assert padded[j] == []; }
    }
  }

  /** Running the pass again changes nothing. */
  lemma CubifiedIdempotent(a: Cube)
    ensures var c := Cubified(a, MaxLens(a)); Cubified(c, MaxLens(c)) == c
  {
    var ml := MaxLens(a);
    var c := Cubified(a, ml);
    CubifiedShape(a);
    var ml' := MaxLens(c);
    assert ml'.planes == ml.planes;
    if |c| > 0 {
      assert |c[0]| == ml.rows;
      assert ml'.rows == ml.rows;
      if ml.rows > 0 {
        assert |c[0][0]| == ml.cells;
        assert ml'.cells == ml.cells;
      }
    }
    var c' := Cubified(c, ml');
    assert |c'| == |c|;
    forall i | 0 <= i < |c| ensures c'[i] == c[i] {
      assert PadTo(c[i], [], ml'.rows) == c[i];
      forall j | 0 <= j < |c[i]| ensures c'[i][j] == c[i][j] {
        assert PadTo(c[i][j], 0.0, ml'.cells) == c[i][j];
      }
    }
  }

  // ---------------------------------------------------------------------
  // The whole decoder.

  /** What `rle2arr(st)` returns: the level-2 stack after the loop,
      rectangularised; or the error the loop threw. */
  function Decode(st: string): (r: Result<Cube>)
    ensures r.Ok? ==> IsBox(r.value, MaxLen(r.value), MaxRowLen(r.value))
  {
    match Scan(Prepare(st))
    case Err(e) => Err(e)
    case Ok(s) =>
      CubifiedShape(s.stacks.planes);
      Ok(Cubified(s.stacks.planes, MaxLens(s.stacks.planes)))
  }

  /** The delimiter loop of `rle2arr` for a delimiter of level `dim`: levels
      0 .. dim-1 are flushed in turn, and level 2 reaches `stacks[3]`. */
  method FlushDelimiter(st: Stacks, count: string, dim: nat) returns (r: Result<Stacks>)
    requires AllDigits(count)
    ensures r == if dim <= 2 then Ok(FlushLevels(st, count, dim)) else Err("stacks[3] is undefined")
  {
    var run, rows, planes := st.run, st.rows, st.planes;
    var d := 0;
    while d < dim
      invariant 0 <= d <= dim && d <= 2
      invariant Stacks(run, rows, planes) == FlushLevels(st, count, d)
    {
      if d == 0 {
        rows := AppendStack(rows, run, count, []);
        run := [];
      } else if d == 1 {
        planes := AppendStack(planes, rows, count, []);
        rows := [];
      } else {
        return Err("stacks[3] is undefined");
      }
      d := d + 1;
    }
    r := Ok(Stacks(run, rows, planes));
  }

  /** The character loop of `rle2arr`: one pass that mutates the stacks,
      `last` and `count`, or stops at the error it throws. */
  method ScanChars(input: string) returns (r: Result<ParseState>)
    ensures r == Scan(input)
  {
    var stacks := Stacks([], [], []);
    var last, count := "", "";
    var i := 0;
    while i < |input|
      invariant 0 <= i <= |input|
      invariant Scan(input[..i]) == Ok(ParseState(stacks, last, count))
    {
      assert input[..i + 1][..i] == input[..i];
      ghost var s := ParseState(stacks, last, count);
      var ch := input[i];
      if IsDigit(ch) {
        count := count + [ch];
      } else if ch in Prefixes {
        last := [ch];
      } else {
        var tok := last + [ch];
        var level := DelimLevel(tok);
        if level.None? {
          var v := Ch2Val(tok) as real / 255.0;
          var run := AppendStack(stacks.run, v, count, v);
          stacks := stacks.(run := run);
        } else {
          var flushed := FlushDelimiter(stacks, count, level.value);
          if flushed.Err? {
            assert Scan(input[..i + 1]) == Err(flushed.msg);
            ScanErrStays(input, i + 1);
            assert input[..|input|] == input;
            return Err(flushed.msg);
          }
          stacks := flushed.value;
        }
        last, count := "", "";
      }
      assert Scan(input[..i + 1]) == Step(s, ch);
      i := i + 1;
    }
    assert input[..i] == input;
    r := Ok(ParseState(stacks, last, count));
  }

  /** `rle2arr` as the source runs it: the character loop, then the
      rectangularisation of the level-2 stack. */
  method Rle2Arr(st: string) returns (r: Result<Cube>)
    ensures r == Decode(st)
    ensures r.Ok? ==> IsBox(r.value, MaxLen(r.value), MaxRowLen(r.value))
  {
    var scanned := ScanChars(Prepare(st));
    if scanned.Err? {
      return Err(scanned.msg);
    }
    var planes := scanned.value.stacks.planes;
    var ml := GetMaxLens(planes);
    var a := Cubify(planes, ml);
    r := Ok(a);
    CubifiedShape(planes);
  }

  // ---------------------------------------------------------------------
  // What one character does.

  /** A value token with count c appends max(c, 1) copies of value/255 to the
      level-0 run and resets the count and the prefix. Characters outside the
      documented alphabet are not rejected: they go through the same formula. */
  lemma ValueToken(s: ParseState, ch: char)
    requires WellFormed(s)
    requires !IsDigit(ch) && ch !in Prefixes && s.last + [ch] !in Delims
    ensures var v := Ch2Val(s.last + [ch]) as real / 255.0;
      Step(s, ch) == Ok(ParseState(s.stacks.(run := s.stacks.run + Repeat(v, Copies(s.count))), "", ""))
  {
    AppendedValueCopies(s.stacks.run, Ch2Val(s.last + [ch]) as real / 255.0, s.count);
  }

  /** `$` with count c pushes the run onto the rows followed by c-1 empty rows
      and clears the run. */
  lemma RowDelimiter(s: ParseState)
    requires WellFormed(s) && s.last == ""
    ensures var st := s.stacks; var e := Repeat([], ExtraCopies(s.count));
      Step(s, '$') == Ok(ParseState(Stacks([], st.rows + [st.run] + e, st.planes), "", ""))
  {
    assert s.last + ['$'] == "$";
    assert !IsDigit('$') && '$' !in Prefixes;
    assert FlushLevels(s.stacks, s.count, 1) == FlushLevel(s.stacks, s.count, 0);
  }

  /** `%` with count c works through level 0 and then level 1: each pushes its
      run one level up followed by c-1 empty lists, then is cleared. */
  lemma PlaneDelimiter(s: ParseState)
    requires WellFormed(s) && s.last == ""
    ensures var st := s.stacks; var e := ExtraCopies(s.count);
      Step(s, '%') == Ok(ParseState(Stacks([], [],
        st.planes + [st.rows + [st.run] + Repeat([], e)] + Repeat([], e)), "", ""))
  {
    assert s.last + ['%'] == "%";
    assert !IsDigit('%') && '%' !in Prefixes;
    var st1 := FlushLevel(s.stacks, s.count, 0);
    assert FlushLevels(s.stacks, s.count, 1) == st1;
    assert FlushLevels(s.stacks, s.count, 2) == FlushLevel(st1, s.count, 1);
  }

  /** Level 3 and higher delimiters (`#`, `@A` .. `@F`) make the decoder fail. */
  lemma DeepDelimiterFails(s: ParseState, ch: char)
    requires WellFormed(s)
    requires (s.last == "" && ch == '#') || (s.last == "@" && 'A' <= ch <= 'F')
    ensures Step(s, ch).Err?
  {
    var tok := s.last + [ch];
    if s.last == "" {
      assert tok == "#";
    } else {
      assert tok == ['@', ch];
      assert tok == "@A" || tok == "@B" || tok == "@C" || tok == "@D" || tok == "@E" || tok == "@F";
    }
  }

  /** The appended `%` flushes the last run to the level-2 stack, unless a
      prefix character is pending at the end of the text: then `p%` (say) is
      read as a value token and the last run is never flushed. */
  lemma LastRunFlushed(st: string)
    ensures var body := Prepare(st)[..|Prepare(st)| - 1];
      Scan(body).Ok? ==>
        Scan(Prepare(st)).Ok? &&
        (Scan(body).value.last == "" ==>
           Scan(Prepare(st)).value.stacks.run == [] && Scan(Prepare(st)).value.stacks.rows == []) &&
        (Scan(body).value.last != "" ==> Scan(Prepare(st)).value.stacks.run != [])
  {
    var input := Prepare(st);
    var body := input[..|input| - 1];
    if Scan(body).Ok? {
      var p := Scan(body).value;
      assert input[|input| - 1] == '%';
      assert Scan(input) == Step(p, '%');
      if p.last == "" {
        PlaneDelimiter(p);
      } else {
        assert p.last[0] in Prefixes;
        var tok := p.last + ['%'];
        assert tok[1] == '%';
        assert tok !in Delims;
        ValueToken(p, '%');
      }
    }
  }

  /** The loop consumes its input one character at a time. */
  lemma ScanSnoc(input: string, ch: char)
    ensures Scan(input + [ch]) == match Scan(input)
      case Err(e) => Err(e)
      case Ok(s) => Step(s, ch)
  {
    assert (input + [ch])[..|input|] == input;
  }

  /** `o` with count c appends c copies (at least one) of the full value 1. */
  lemma FullCell(s: ParseState)
    requires WellFormed(s) && s.last == ""
    ensures Step(s, 'o') == Ok(ParseState(s.stacks.(run := s.stacks.run + Repeat(1.0, Copies(s.count))), "", ""))
  {
    assert !IsDigit('o') && 'o' !in Prefixes && s.last + ['o'] == "o" && "o" !in Delims;
    ValueToken(s, 'o');
    assert Ch2Val("o") as real / 255.0 == 1.0;
  }

  /** The first two characters of the example: a count and a full cell. */
  lemma ExampleRun()
    ensures Scan("2o") == Ok(ParseState(Stacks([1.0, 1.0], [], []), "", ""))
  {
    var s1 := ParseState(Stacks([], [], []), "", "2");
    assert WellFormed(Initial) && IsDigit('2');
    assert Initial.count + ['2'] == "2";
    ScanSnoc("", '2');
    assert "" + ['2'] == "2";
    assert Scan("2") == Ok(s1);
    FullCell(s1);
    assert DigitsValue("2") == 2 && Copies("2") == 2;
    assert s1.stacks.run + Repeat(1.0, 2) == [1.0, 1.0];
    ScanSnoc("2", 'o');
    assert "2" + ['o'] == "2o";
  }

  /** The row break after the first run. */
  lemma ExampleRowBreak()
    ensures Scan("2o$") == Ok(ParseState(Stacks([], [[1.0, 1.0]], []), "", ""))
  {
    ExampleRun();
    var s2 := ParseState(Stacks([1.0, 1.0], [], []), "", "");
    RowDelimiter(s2);
    assert ExtraCopies("") == 0 && Repeat<Row>([], 0) == [];
    var s3 := ParseState(Stacks([], [[1.0, 1.0]], []), "", "");
    assert [] + [[1.0, 1.0]] + Repeat<Row>([], 0) == [[1.0, 1.0]];
    assert Step(s2, '$') == Ok(s3);
    ScanSnoc("2o", '$');
    assert "2o" + ['$'] == "2o$";
  }

  /** The row break and the next cell. */
  lemma ExampleRows()
    ensures Scan("2o$o") == Ok(ParseState(Stacks([1.0], [[1.0, 1.0]], []), "", ""))
  {
    ExampleRowBreak();
    var s3 := ParseState(Stacks([], [[1.0, 1.0]], []), "", "");
    FullCell(s3);
    assert Copies("") == 1 && Repeat(1.0, 1) == [1.0];
    ScanSnoc("2o$", 'o');
    assert "2o$" + ['o'] == "2o$o";
  }

  /** The whole example text, with its final `%`. */
  lemma ExampleScan()
    ensures Scan(Prepare("2o$o!")) == Ok(ParseState(Stacks([], [], [[[1.0, 1.0], [1.0]]]), "", ""))
  {
    ExampleRows();
    var s4 := ParseState(Stacks([1.0], [[1.0, 1.0]], []), "", "");
    var s5 := ParseState(Stacks([], [], [[[1.0, 1.0], [1.0]]]), "", "");
    ExampleLastDelimiter(s4, s5);
    ScanSnoc("2o$o", '%');
    var st := "2o$o!";
    assert st[..|st| - 1] == "2o$o";
    assert Prepare(st) == "2o$o" + ['%'];
  }

  lemma ExampleLastDelimiter(s4: ParseState, s5: ParseState)
    requires s4 == ParseState(Stacks([1.0], [[1.0, 1.0]], []), "", "")
    requires s5 == ParseState(Stacks([], [], [[[1.0, 1.0], [1.0]]]), "", "")
    ensures Step(s4, '%') == Ok(s5)
  {
    PlaneDelimiter(s4);
    assert ExtraCopies("") == 0;
    var er: seq<Row> := Repeat<Row>([], 0);
    var ep: seq<Plane> := Repeat<Plane>([], 0);
    assert er == [] && ep == [];
    var plane: Plane := s4.stacks.rows + [s4.stacks.run] + er;
    assert plane == [[1.0, 1.0], [1.0]];
    var planes: Cube := s4.stacks.planes + [plane] + ep;
    assert planes == [[[1.0, 1.0], [1.0]]];
  }

  /** The rectangularisation of the example: the short row gets a 0. */
  lemma ExampleCubify()
    ensures var planes: Cube := [[[1.0, 1.0], [1.0]]];
      Cubified(planes, MaxLens(planes)) == [[[1.0, 1.0], [1.0, 0.0]]]
  {
    var planes: Cube := [[[1.0, 1.0], [1.0]]];
    assert planes[..0] == [];
    assert MaxLen(planes) == 2;
    var p := planes[0];
    assert p[..1] == [[1.0, 1.0]] && p[..1][..0] == [];
    assert MaxLen(p) == 2;
    assert MaxRowLen(planes) == 2;
    var ml := Lens(1, 2, 2);
    assert MaxLens(planes) == ml;
    var c := Cubified(planes, ml);
    assert PadTo(planes, [], 1) == planes;
    assert PadTo(p, [], 2) == p;
    assert CubifiedRow([1.0, 1.0], ml) == [1.0, 1.0];
    assert Repeat(0.0, 1) == [0.0];
    assert CubifiedRow([1.0], ml) == [1.0, 0.0];
    assert c[0] == CubifiedPlane(p, ml);
    assert c[0] == [[1.0, 1.0], [1.0, 0.0]];
  }

  /** A hand-decoded example: two cells, a row break, one cell; the short row
      is padded with 0. */
  /** "p" leaves the prefix `p` pending, so the appended `%` forms the value
      token "p%" instead of a delimiter: nothing reaches the planes and the
      pattern decodes to no planes at all. */
  lemma DecodePrefixOnly()
    ensures Decode("p") == Ok([])
  {
    var s1 := ParseState(Stacks([], [], []), "p", "");
    assert WellFormed(Initial) && !IsDigit('p') && 'p' in Prefixes;
    ScanSnoc("", 'p');
    assert "" + ['p'] == "p";
    assert Scan("p") == Ok(s1);
    assert !IsDigit('%') && '%' !in Prefixes && s1.last + ['%'] == "p%" && "p%" !in Delims;
    ValueToken(s1, '%');
    ScanSnoc("p", '%');
    assert Prepare("p") == "p" + ['%'];
    var v := Ch2Val("p%") as real / 255.0;
    assert Scan(Prepare("p")) == Ok(ParseState(Stacks([] + Repeat(v, Copies("")), [], []), "", ""));
  }

  lemma DecodeExample()
    ensures Decode("2o$o!") == Ok([[[1.0, 1.0], [1.0, 0.0]]])
  {
    ExampleScan();
    ExampleCubify();
  }

  // ---------------------------------------------------------------------
  // `st2fracs`: shell coefficients such as "1/2,3".

  /** The ASCII white space JavaScript's `parseInt` skips before a number:
      space, tab, line feed, carriage return, vertical tab and form feed.
      The non-ASCII white space it also skips (no-break space, the byte
      order mark, the line and paragraph separators and the other Unicode
      space separators) is not included. */
  predicate IsJsSpace(c: char) {
    c == ' ' || c == '\t' || c == '\n' || c == '\r' || c as int == 11 || c as int == 12
  }

  function TrimStart(s: string): string {
    if s != [] && IsJsSpace(s[0]) then TrimStart(s[1..]) else s
  }

  predicate IsHexDigit(c: char) {
    IsDigit(c) || 'a' <= c <= 'f' || 'A' <= c <= 'F'
  }

  function HexValue(s: string): nat
    requires forall i :: 0 <= i < |s| ==> IsHexDigit(s[i])
  {
    if s == [] then 0 else
      var c := s[|s| - 1];
      assert IsHexDigit(c);
      var d := if IsDigit(c) then DigitValue(c) else if 'a' <= c <= 'f' then c as int - 'a' as int + 10 else c as int - 'A' as int + 10;
      16 * HexValue(s[..|s| - 1]) + d
  }

  /** What follows the leading white space and an optional sign. */
  function Unsigned(t: string): string {
    if |t| > 0 && (t[0] == '-' || t[0] == '+') then t[1..] else t
  }

  /** `0x` then the longest run of hexadecimal digits, otherwise the longest
      run of decimal digits; None when the run is empty. */
  function Magnitude(u: string): Option<nat> {
    if |u| >= 2 && u[0] == '0' && (u[1] == 'x' || u[1] == 'X') then
      var h := LeadingRun(u[2..], IsHexDigit);
      if h == [] then None else Some(HexValue(h))
    else
      var d := LeadingRun(u, IsDigit);
      if d == [] then None else Some(DigitsValue(d))
  }

  /** JavaScript's `parseInt(s)` without a radix: leading white space, an
      optional sign, `0x` for hexadecimal, then the longest run of digits; NaN
      when there is no digit, an infinity of the sign when the value is too
      large for a double. */
  function ParseInt(s: string): (r: Number)
    ensures r.NaN? <==> Magnitude(Unsigned(TrimStart(s))).None?
    ensures r.Finite? ==> r.v == r.v.Floor as real && -Overflow < r.v < Overflow
    ensures r.Infinite? ==> (Magnitude(Unsigned(TrimStart(s))).value as real >= Overflow &&
      (r.negative <==> TrimStart(s)[0] == '-'))
  {
    var t := TrimStart(s);
    var negative := |t| > 0 && t[0] == '-';
    match Magnitude(Unsigned(t))
    case None => NaN
    case Some(n) =>
      var x := if negative then 0 - n as int else n as int;
      FromExact(x as real)
  }

  /** A plain string of digits parses to its decimal value, or to
      `Infinity` when that is too large. */
  lemma ParseIntDigits(d: string)
    requires d != [] && AllDigits(d)
    ensures ParseInt(d) == FromExact(DigitsValue(d) as real)
  {
    assert TrimStart(d) == d;
    var r := LeadingRun(d, IsDigit);
    assert r == d;
  }

  /** One comma field: "a/b" is a divided by b, anything else `parseInt`. */
  function FieldValue(field: string): (r: Number)
    ensures '/' !in field ==> r == ParseInt(field) && (r.Finite? ==> r.v == r.v.Floor as real)
    ensures '/' in field ==> (|Split(field, '/')| >= 2 &&
      (ParseInt(Split(field, '/')[0]).NaN? || ParseInt(Split(field, '/')[1]).NaN? ==> r.NaN?))
  {
    if '/' in field then
      var parts := Split(field, '/');
      Divide(ParseInt(parts[0]), ParseInt(parts[1]))
    else ParseInt(field)
  }

  /** What `st2fracs(text)` returns: one number per comma field. */
  function Fractions(text: string): (r: seq<Number>)
    ensures |r| == |Split(text, ',')|
  {
    var fields := Split(text, ',');
    seq(|fields|, i requires 0 <= i < |fields| => FieldValue(fields[i]))
  }

  /** `st2fracs` as the source runs it: a push loop over the fields. */
  method St2Fracs(text: string) returns (result: seq<Number>)
    ensures result == Fractions(text)
  {
    var splitValues := Split(text, ',');
    result := [];
    var i := 0;
    while i < |splitValues|
      invariant 0 <= i <= |splitValues|
      invariant result == Fractions(text)[..i]
    {
      var value := splitValues[i];
      if '/' in value {
        var fractionParts := Split(value, '/');
        var numerator := ParseInt(fractionParts[0]);
        var denominator := ParseInt(fractionParts[1]);
        result := result + [Divide(numerator, denominator)];
      } else {
        result := result + [ParseInt(value)];
      }
      i := i + 1;
    }
  }

  /** A field "a/b" of decimal digits with b != 0, both below the overflow
      bound, is the exact quotient. */
  lemma FractionField(a: string, b: string)
    requires a != [] && AllDigits(a) && b != [] && AllDigits(b) && DigitsValue(b) != 0
    requires (DigitsValue(a) as real) < Overflow && (DigitsValue(b) as real) < Overflow
    ensures FieldValue(a + "/" + b) == Finite(DigitsValue(a) as real / DigitsValue(b) as real)
  {
    DigitsExclude(a, '/');
    DigitsExclude(b, '/');
    SlashField(a, b);
    ParseIntDigits(a);
    ParseIntDigits(b);
    var x := DigitsValue(a) as real;
    var y := DigitsValue(b) as real;
    assert y != 0.0;
    assert Divide(Finite(x), Finite(y)) == Finite(x / y);
  }

  /** A field with one `/` divides what `parseInt` makes of its two sides. */
  lemma SlashField(a: string, b: string)
    requires '/' !in a && '/' !in b
    ensures FieldValue(a + "/" + b) == Divide(ParseInt(a), ParseInt(b))
  {
    var f := a + "/" + b;
    assert f == a + ['/'] + b;
    SplitAtSeparator(a, b, '/');
    SplitNoSeparator(b, '/');
    assert Split(f, '/') == [a, b];
    assert f[|a|] == '/';
  }

  lemma DigitsExclude(s: string, c: char)
    requires AllDigits(s) && !IsDigit(c)
    ensures c !in s
  {
  }

  /** "1/2,3" gives [0.5, 3]. */
  lemma FractionsExample()
    ensures Fractions("1/2,3") == [Finite(0.5), Finite(3.0)]
  {
    ExampleFields();
    ExampleHalf();
    ExampleThree();
  }

  lemma ExampleFields()
    ensures Split("1/2,3", ',') == ["1/2", "3"]
  {
    SplitAtSeparator("1/2", "3", ',');
    SplitNoSeparator("3", ',');
    assert "1/2,3" == "1/2" + [','] + "3";
  }

  lemma ExampleHalf()
    ensures FieldValue("1/2") == Finite(0.5)
  {
    HalfField("1", "2");
    assert "1" + "/" + "2" == "1/2";
  }

  lemma HalfField(a: string, b: string)
    requires a == "1" && b == "2"
    ensures FieldValue(a + "/" + b) == Finite(0.5)
  {
    assert DigitsValue(a) == 1 && DigitsValue(b) == 2;
    FractionField(a, b);
  }

  lemma ExampleThree()
    ensures FieldValue("3") == Finite(3.0)
  {
    assert '/' !in "3";
    assert DigitsValue("3") == 3;
    ParseIntDigits("3");
  }

  // ---------------------------------------------------------------------
  // Catalogue lookup.

  /** One entry of the pattern catalogue: a header (3 keys) or a pattern. */
  datatype Entry = Entry(keyCount: nat, code: string, name: string, cells: string, params: Params)

  /** A decoded pattern: `{tensor, type, params, id}`. */
  datatype Pattern = Pattern(tensor: Cube, typeName: string, params: Params, id: int)

  /** A header name without its first word. */
  function DropFirstWord(name: string): string {
    Join(Split(name, ' ')[1..], ' ')
  }

  /** The names `SelectType` pushes while walking from index `i` down to 0,
      `code` being the code of the last header taken. */
  function HeaderNames(animals: seq<Entry>, i: int, code: string): seq<string>
    requires i < |animals|
    decreases i + 1
  {
    if i < 0 then []
    else if animals[i].keyCount == 3 && animals[i].code != code then
      [DropFirstWord(animals[i].name)] + HeaderNames(animals, i - 1, animals[i].code)
    else HeaderNames(animals, i - 1, code)
  }

  /** Every collected name comes from a header at or before index `i`. */
  lemma {:induction false} HeaderNamesFromHeaders(animals: seq<Entry>, i: int, code: string, k: nat)
    requires i < |animals|
    requires k < |HeaderNames(animals, i, code)|
    ensures exists j :: (0 <= j <= i && animals[j].keyCount == 3
      && HeaderNames(animals, i, code)[k] == DropFirstWord(animals[j].name))
    decreases i + 1
  {
    if animals[i].keyCount == 3 && animals[i].code != code {
      if k > 0 {
        HeaderNamesFromHeaders(animals, i - 1, animals[i].code, k - 1);
      }
    } else {
      HeaderNamesFromHeaders(animals, i - 1, code, k);
    }
  }

  /** `SelectType(id)`: the header names above the entry, outermost first. */
  function TypeName(animals: seq<Entry>, id: int): (r: string)
    requires 0 <= id < |animals|
    ensures var names := HeaderNames(animals, id, animals[id].code);
      (names == [] ==> r == "") && (names != [] ==> names[|names| - 1] <= r)
  {
    Join(Reverse(HeaderNames(animals, id, animals[id].code)), ' ')
  }

  /** `SelectType` as the source runs it: a loop walking `i` down to 0. */
  method SelectType(animals: seq<Entry>, id: int) returns (r: string)
    requires 0 <= id < |animals|
    ensures r == TypeName(animals, id)
  {
    var names: seq<string> := [];
    var i := id;
    var currcode := animals[id].code;
    while i >= 0
      invariant -1 <= i <= id
      invariant names + HeaderNames(animals, i, currcode) == HeaderNames(animals, id, animals[id].code)
    {
      var a := animals[i];
      var names0, code0 := names, currcode;
      if a.keyCount == 3 && a.code != currcode {
        names := names + [DropFirstWord(a.name)];
        currcode := a.code;
      }
      HeaderNamesStep(animals, i, code0, names0, currcode, names);
      i := i - 1;
    }
    HeaderNamesDone(animals, currcode, names);
    r := Join(Reverse(names), ' ');
  }

  /** Past index 0 nothing is left to collect. */
  lemma HeaderNamesDone(animals: seq<Entry>, code: string, names: seq<string>)
    ensures names + HeaderNames(animals, -1, code) == names
  {
    assert names + [] == names;
  }

  /** One iteration of the `SelectType` loop: a header with a new code
      moves its name from the names still to come to the names taken. */
  lemma HeaderNamesStep(animals: seq<Entry>, i: int, code: string, names: seq<string>, code': string, names': seq<string>)
    requires 0 <= i < |animals|
    requires var a := animals[i];
      if a.keyCount == 3 && a.code != code then names' == names + [DropFirstWord(a.name)] && code' == a.code
      else names' == names && code' == code
    ensures names' + HeaderNames(animals, i - 1, code') == names + HeaderNames(animals, i, code)
  {
    var a := animals[i];
    if a.keyCount == 3 && a.code != code {
      var name := DropFirstWord(a.name);
      assert HeaderNames(animals, i, code) == [name] + HeaderNames(animals, i - 1, a.code);
      assert names + [name] + HeaderNames(animals, i - 1, a.code)
        == names + ([name] + HeaderNames(animals, i - 1, a.code));
    }
  }


  /** What `SelectAnimalID(id)` does: nothing (`undefined`) for an id outside
      the catalogue or an entry with fewer than four keys; otherwise the decoded
      cells, the type name and the params with `b` parsed by `st2fracs`. A
      decoder failure, or a `b` that is not a string, is thrown. */
  function Selected(animals: seq<Entry>, id: int): (r: Result<Option<Pattern>>)
    ensures r == Ok(None) <==> id < 0 || id >= |animals| || animals[id].keyCount < 4
    ensures r.Ok? && r.value.Some? ==> var t := r.value.value.tensor;
      0 <= id < |animals| && r.value.value.id == id &&
      Decode(animals[id].cells) == Ok(t) && IsBox(t, MaxLen(t), MaxRowLen(t)) &&
      r.value.value.typeName == TypeName(animals, id) &&
      "b" in animals[id].params && animals[id].params["b"].Text? &&
      r.value.value.params == animals[id].params["b" := Numbers(Fractions(animals[id].params["b"].s))]
    ensures r.Err? ==> (0 <= id < |animals| && animals[id].keyCount >= 4 &&
      (Decode(animals[id].cells).Err? || !("b" in animals[id].params && animals[id].params["b"].Text?)))
  {
    if id < 0 || id >= |animals| then Ok(None)
    else
      var a := animals[id];
      if a.keyCount < 4 then Ok(None)
      else match Decode(a.cells)
        case Err(e) => Err(e)
        case Ok(tensor) =>
          if "b" in a.params && a.params["b"].Text? then
            Ok(Some(Pattern(tensor, TypeName(animals, id),
                            a.params["b" := Numbers(Fractions(a.params["b"].s))], id)))
          else Err("params.b.split is not a function")
  }

  method SelectAnimalID(animals: seq<Entry>, id: int) returns (r: Result<Option<Pattern>>)
    ensures r == Selected(animals, id)
    ensures id < 0 || id >= |animals| || animals[id].keyCount < 4 <==> r == Ok(None)
    ensures r.Ok? && r.value.Some? ==> r.value.value.id == id && Decode(animals[id].cells) == Ok(r.value.value.tensor)
  {
    if id < 0 || id >= |animals| {
      return Ok(None);
    }
    var a := animals[id];
    if a.keyCount < 4 {
      return Ok(None);
    }
    var tensor := Rle2Arr(a.cells);
    if tensor.Err? {
      return Err(tensor.msg);
    }
    var params := a.params;
    var typeName := SelectType(animals, id);
    if !("b" in params && params["b"].Text?) {
      return Err("params.b.split is not a function");
    }
    var b := St2Fracs(params["b"].s);
    params := params["b" := Numbers(b)];
    r := Ok(Some(Pattern(tensor.value, typeName, params, id)));
  }
}
