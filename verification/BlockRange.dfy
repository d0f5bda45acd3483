/** Block ranges of the settings: their text form, and their expansion to block numbers. */
module BlockRange {
  import opened Arithmetic
  import opened Common

  const TWO_64: nat := 0x1_0000_0000_0000_0000

  datatype BlockCfg = Number(n: nat) | Genesis | Latest {
    function ToBlockNumber(latestBlock: nat): nat {
      match this
      case Number(n) => n
      case Genesis => 0
      case Latest => latestBlock
    }

    /** Block numbers are 64 bits wide. */
    predicate Fits() { Number? ==> n < TWO_64 }
  }

  datatype BlockRangeCfg = BlockRangeCfg(start: BlockCfg, end: BlockCfg) {
    predicate Fits() { start.Fits() && end.Fits() }
  }

  datatype ParseError = InvalidBlockNumber | InvalidRangeSyntax

  // ----- printing and parsing

  function Print(block: BlockCfg): string {
    match block
    case Number(n) => Decimal(n)
    case _ => ""
  }

  function Serialize(range: BlockRangeCfg): string {
    Print(range.start) + ".." + Print(range.end)
  }

  method SerializeText(range: BlockRangeCfg) returns (text: string)
    ensures text == Serialize(range)
  {
    text := "";
    match range.start {
      case Genesis =>
      case Latest =>
      case Number(n) => text := text + Decimal(n);
    }
    text := text + "..";
    match range.end {
      case Genesis =>
      case Latest =>
      case Number(n) => text := text + Decimal(n);
    }
  }

  /** The position of the first two adjacent dots, or the length of the text. */
  function FirstDots(s: string): (i: nat)
    ensures i <= |s|
    ensures i < |s| ==> i + 1 < |s| && s[i] == '.' && s[i + 1] == '.'
  {
    if |s| < 2 then |s|
    else if s[0] == '.' && s[1] == '.' then 0
    else 1 + FirstDots(s[1..])
  }

  /** `s.split("..")`: the pieces between separators found from the left. */
  function Split(s: string): (parts: seq<string>)
    ensures |parts| > 0
    decreases |s|
  {
    var i := FirstDots(s);
    if i == |s| then [s] else [s[..i]] + Split(s[i + 2..])
  }

  function DigitValue(c: char): Option<nat> {
    if '0' <= c <= '9' then Some(c as int - '0' as int) else None
  }

  /** The value of a text of digits. */
  function DigitsValue(s: string): Option<nat> {
    if |s| == 0 then Some(0)
    else
      match (DigitsValue(s[..|s| - 1]), DigitValue(s[|s| - 1]))
      case (Some(high), Some(low)) => Some(10 * high + low)
      case _ => None
  }

  /** `str::parse::<u64>`: an optional plus sign and at least one digit, below `2^64`. */
  function ParseU64(s: string): Option<nat> {
    var digits := if |s| > 0 && s[0] == '+' then s[1..] else s;
    if |digits| == 0 then None
    else
      match DigitsValue(digits)
      case Some(n) => if n < TWO_64 then Some(n) else None
      case None => None
  }

  function ParseBlock(s: string, default: BlockCfg): Result<BlockCfg, ParseError> {
    if s == "" then Ok(default)
    else
      match ParseU64(s)
      case Some(n) => Ok(Number(n))
      case None => Err(InvalidBlockNumber)
  }

  function ParseRange(s: string): Result<BlockRangeCfg, ParseError> {
    var parts := Split(s);
    if |parts| == 2 then
      match ParseBlock(parts[0], Genesis)
      case Err(error) => Err(error)
      case Ok(start) =>
        match ParseBlock(parts[1], Latest)
        case Err(error) => Err(error)
        case Ok(end) => Ok(BlockRangeCfg(start, end))
    else Err(InvalidRangeSyntax)
  }

  ghost predicate NoDots(s: string) { forall i :: 0 <= i < |s| ==> s[i] != '.' }

  lemma {:induction false} FirstDotsAfter(a: string, b: string)
    requires NoDots(a)
    ensures FirstDots(a + ".." + b) == |a|
  {
    var s := a + ".." + b;
    if |a| > 0 {
      FirstDotsAfter(a[1..], b);
      assert s[1..] == a[1..] + ".." + b;
      assert s[0] == a[0];
    }
  }

  lemma {:induction false} FirstDotsNone(a: string)
    requires NoDots(a)
    ensures FirstDots(a) == |a|
  {
    if |a| >= 2 {
      FirstDotsNone(a[1..]);
    }
  }

  lemma {:induction false} SplitTwo(a: string, b: string)
    requires NoDots(a) && NoDots(b)
    ensures Split(a + ".." + b) == [a, b]
  {
    var s := a + ".." + b;
    FirstDotsAfter(a, b);
    FirstDotsNone(b);
    assert s[..|a|] == a && s[|a| + 2..] == b;
  }

  ghost function Joined(parts: seq<string>): string
    requires |parts| > 0
  {
    if |parts| == 1 then parts[0] else parts[0] + ".." + Joined(parts[1..])
  }

  lemma {:induction false} JoinSplit(s: string)
    ensures Joined(Split(s)) == s
    decreases |s|
  {
    var i := FirstDots(s);
    if i < |s| {
      JoinSplit(s[i + 2..]);
      JoinNext(s[..i], Split(s[i + 2..]));
      CutAtDots(s, i);
    }
  }

  lemma {:induction false} JoinNext(first: string, rest: seq<string>)
    requires |rest| > 0
    ensures Joined([first] + rest) == first + ".." + Joined(rest)
  {
    assert ([first] + rest)[1..] == rest;
  }

  lemma {:induction false} CutAtDots(s: string, i: nat)
    requires i + 1 < |s| && s[i] == '.' && s[i + 1] == '.'
    ensures s[..i] + ".." + s[i + 2..] == s
  {
  }

  lemma {:induction false} DigitsHaveNoDots(s: string)
    requires DigitsValue(s).Some?
    ensures NoDots(s)
  {
    if |s| > 0 {
      DigitsHaveNoDots(s[..|s| - 1]);
    }
  }

  lemma {:induction false} ParsedHasNoDots(s: string, default: BlockCfg)
    requires ParseBlock(s, default).Ok?
    ensures NoDots(s)
  {
    if s != "" {
      var digits := if s[0] == '+' then s[1..] else s;
      DigitsHaveNoDots(digits);
      assert forall i :: 0 < i < |s| && s[0] == '+' ==> s[i] == digits[i - 1];
    }
  }

  /** A text is a range exactly when it is two block texts around the dots, and it means those blocks. */
  lemma {:induction false} RangeTexts(s: string)
    ensures ParseRange(s).Ok? ==> exists a, b :: s == a + ".." + b && Means(a, b, ParseRange(s).value)
    ensures forall a, b, range :: s == a + ".." + b && Means(a, b, range) ==> ParseRange(s) == Ok(range)
  {
    if ParseRange(s).Ok? {
      var parts := Split(s);
      JoinSplit(s);
      assert parts[1..] == [parts[1]];
      assert s == parts[0] + ".." + parts[1] && Means(parts[0], parts[1], ParseRange(s).value);
    }
    forall a, b, range | s == a + ".." + b && Means(a, b, range) ensures ParseRange(s) == Ok(range) {
      ParsedHasNoDots(a, Genesis);
      ParsedHasNoDots(b, Latest);
      SplitTwo(a, b);
    }
  }

  ghost predicate Means(a: string, b: string, range: BlockRangeCfg) {
    ParseBlock(a, Genesis) == Ok(range.start) && ParseBlock(b, Latest) == Ok(range.end)
  }

  // ----- what block texts mean

  ghost predicate AllDigits(s: string) { forall i :: 0 <= i < |s| ==> '0' <= s[i] <= '9' }

  /** The value of a text of digits, the first one being the most significant. */
  ghost function ValueOf(s: string): nat
    requires AllDigits(s)
  {
    if |s| == 0 then 0 else Shifted(s[0] as int - '0' as int, |s| - 1) + ValueOf(s[1..])
  }

  /** A digit with `places` digits behind it. */
  ghost function Shifted(digit: nat, places: nat): nat {
    if places == 0 then digit else 10 * Shifted(digit, places - 1)
  }

  lemma {:induction false} ValueOfNext(s: string, c: char)
    requires AllDigits(s) && '0' <= c <= '9'
    ensures AllDigits(s + [c]) && ValueOf(s + [c]) == 10 * ValueOf(s) + (c as int - '0' as int)
  {
    if |s| == 0 {
      assert (s + [c])[1..] == [];
    } else {
      ValueOfNext(s[1..], c);
      assert (s + [c])[1..] == s[1..] + [c];
      assert (s + [c])[0] == s[0];
    }
  }

  lemma {:induction false} DigitsMean(s: string)
    ensures DigitsValue(s).Some? <==> AllDigits(s)
    ensures AllDigits(s) ==> DigitsValue(s) == Some(ValueOf(s))
  {
    if |s| > 0 {
      var init, last := s[..|s| - 1], s[|s| - 1];
      DigitsMean(init);
      assert s == init + [last];
      if AllDigits(s) {
        ValueOfNext(init, last);
      }
    }
  }

  /** The digits of a number text: an optional plus sign before them is dropped. */
  ghost function DigitsOf(s: string): string { if |s| > 0 && s[0] == '+' then s[1..] else s }

  /** An empty block text is the default; any other one is a number if it has digits, and nothing but digits, after an
      optional plus sign, and their value fits 64 bits. */
  lemma {:induction false} BlockTexts(s: string, default: BlockCfg)
    ensures s == "" ==> ParseBlock(s, default) == Ok(default)
    ensures s != "" ==>
      if |DigitsOf(s)| > 0 && AllDigits(DigitsOf(s)) && ValueOf(DigitsOf(s)) < 18_446_744_073_709_551_616 then
        ParseBlock(s, default) == Ok(Number(ValueOf(DigitsOf(s))))
      else ParseBlock(s, default) == Err(InvalidBlockNumber)
  {
    DigitsMean(DigitsOf(s));
  }

  /** A text is refused for its syntax exactly if it does not have one separator, otherwise for one of its numbers. */
  lemma {:induction false} RangeErrors(s: string)
    ensures ParseRange(s) == Err(InvalidRangeSyntax) <==> |Split(s)| != 2
    ensures |Split(s)| == 2 && ParseRange(s).Err? ==> ParseRange(s) == Err(InvalidBlockNumber)
  {
  }

  /** Numbers are printed as the digits of their value, without leading zeros. */
  lemma {:induction false} NumberTexts(n: nat)
    ensures |Decimal(n)| > 0 && AllDigits(Decimal(n)) && ValueOf(Decimal(n)) == n
    ensures n > 0 ==> Decimal(n)[0] != '0'
    decreases n
  {
    DecimalValue(n);
    DigitsMean(Decimal(n));
    if n >= 10 {
      NumberTexts(n / 10);
    }
  }

  lemma {:induction false} DecimalValue(n: nat)
    ensures |Decimal(n)| > 0 && DigitsValue(Decimal(n)) == Some(n) && DigitValue(Decimal(n)[0]).Some?
    decreases n
  {
    var s := Decimal(n);
    if n < 10 {
      assert s[..0] == [];
      DigitOf(n);
    } else {
      DecimalValue(n / 10);
      assert s[..|s| - 1] == Decimal(n / 10);
      DigitOf(n % 10);
    }
  }

  lemma {:induction false} DigitOf(d: nat)
    requires d < 10
    ensures DigitValue(DigitChar(d)) == Some(d)
  {
  }

  lemma {:induction false} PrintParses(block: BlockCfg, default: BlockCfg)
    requires block.Fits()
    ensures ParseBlock(Print(block), default) == Ok(if block.Number? then block else default)
  {
    if block.Number? {
      DecimalValue(block.n);
    }
  }

  /** Printing and parsing gives the range back exactly when its start is not `Latest` and its end is not `Genesis`;
      those two print like an open end and come back as the other. */
  lemma {:induction false} PrintThenParse(range: BlockRangeCfg)
    requires range.Fits()
    ensures ParseRange(Serialize(range)).Ok?
    ensures ParseRange(Serialize(range)) == Ok(range) <==> !range.start.Latest? && !range.end.Genesis?
  {
    PrintParses(range.start, Genesis);
    PrintParses(range.end, Latest);
    ParsedHasNoDots(Print(range.start), Genesis);
    ParsedHasNoDots(Print(range.end), Latest);
    SplitTwo(Print(range.start), Print(range.end));
  }

  /** Every range that parsing produces survives printing and parsing. */
  lemma {:induction false} ParseThenPrint(s: string)
    requires ParseRange(s).Ok?
    ensures ParseRange(Serialize(ParseRange(s).value)) == ParseRange(s)
  {
    PrintThenParse(ParseRange(s).value);
  }

  // ----- expansion

  datatype BlocksCfg = RangeWithInterval(range: BlockRangeCfg, interval: nat) | SimpleRange(range: BlockRangeCfg)

  /** What comes of an expansion; `Endless` stands for a loop that never ends. */
  datatype Expansion = Blocks(numbers: seq<nat>) | InvalidBlockRange | CursorOverflow | Endless

  predicate ValidRange(range: BlockRangeCfg, latestBlock: nat) {
    range.start.ToBlockNumber(latestBlock) <= range.end.ToBlockNumber(latestBlock)
  }

  /** The block that a configured one stands for: its number, block 0, or the latest one. */
  ghost function BlockAt(block: BlockCfg, latestBlock: nat): nat {
    match block
    case Number(n) => n
    case Genesis => 0
    case Latest => latestBlock
  }

  /** The numbers from `start` in steps of `interval` up to `end`, and no others. */
  ghost predicate IsProgression(numbers: seq<nat>, start: nat, interval: nat, end: nat) {
    && |numbers| > 0 && numbers[0] == start
    && (forall i :: 0 <= i < |numbers| - 1 ==> numbers[i + 1] == numbers[i] + interval)
    && numbers[|numbers| - 1] <= end < numbers[|numbers| - 1] + interval
  }

  /** The cursor of the loop after `k` rounds. */
  ghost function Cursor(start: nat, interval: nat, k: nat): nat {
    if k == 0 then start else Cursor(start, interval, k - 1) + interval
  }

  lemma {:induction false} CursorAt(start: nat, interval: nat, k: nat)
    ensures Cursor(start, interval, k) == start + k * interval
  {
    if k > 0 {
      CursorAt(start, interval, k - 1);
      assert k * interval == (k - 1) * interval + interval;
    }
  }

  lemma {:induction false} CursorPasses(start: nat, interval: nat, end: nat) returns (k: nat)
    requires interval > 0
    ensures Cursor(start, interval, k) > end
  {
    k := end + 1;
    CursorAt(start, interval, k);
    MulMonotone(1, interval, k);
  }

  /** The loop over a valid range never passes its end exactly when the interval is 0. */
  lemma {:induction false} EndlessExactly(start: nat, interval: nat, end: nat)
    requires start <= end
    ensures (forall k: nat :: Cursor(start, interval, k) <= end) <==> interval == 0
  {
    if interval == 0 {
      forall k: nat ensures Cursor(start, interval, k) == start {
        CursorAt(start, interval, k);
      }
    } else {
      var k := CursorPasses(start, interval, end);
    }
  }

  /** The cursor of the loop is a 64-bit number: stepping past the last block overflows when there is no room. */
  method Expand(cfg: BlocksCfg, latestBlock: nat) returns (r: Expansion)
    requires cfg.range.Fits() && latestBlock < TWO_64
    ensures BlockAt(cfg.range.start, latestBlock) > BlockAt(cfg.range.end, latestBlock) <==> r == InvalidBlockRange
    ensures BlockAt(cfg.range.start, latestBlock) <= BlockAt(cfg.range.end, latestBlock) ==>
      var start, end := BlockAt(cfg.range.start, latestBlock), BlockAt(cfg.range.end, latestBlock);
      match cfg
      case SimpleRange(_) => r.Blocks? && IsProgression(r.numbers, start, 1, end)
      case RangeWithInterval(_, interval) =>
        if interval == 0 then r == Endless && forall k: nat :: Cursor(start, interval, k) <= end
        else
          exists numbers ::
            && IsProgression(numbers, start, interval, end)
            && r == if numbers[|numbers| - 1] + interval < 18_446_744_073_709_551_616 then Blocks(numbers)
                    else CursorOverflow
  {
    if !ValidRange(cfg.range, latestBlock) {
      return InvalidBlockRange;
    }
    var start, end := cfg.range.start.ToBlockNumber(latestBlock), cfg.range.end.ToBlockNumber(latestBlock);
    match cfg
    case SimpleRange(_) =>
      r := Blocks(seq(end - start + 1, i requires 0 <= i < end - start + 1 => start + i));
    case RangeWithInterval(_, interval) =>
      EndlessExactly(start, interval, end);
      if interval == 0 {
        return Endless;
      }
      var numbers: seq<nat> := [];
      var current := start;
      while current <= end
        invariant current == Cursor(start, interval, |numbers|)
        invariant |numbers| > 0 ==>
          && numbers[0] == start && numbers[|numbers| - 1] <= end && current == numbers[|numbers| - 1] + interval
          && current < TWO_64
        invariant forall i :: 0 <= i < |numbers| - 1 ==> numbers[i + 1] == numbers[i] + interval
        decreases end + interval - current
      {
        numbers := numbers + [current];
        if current + interval >= TWO_64 {
          assert IsProgression(numbers, start, interval, end);
          return CursorOverflow;
        }
        current := current + interval;
      }
      assert IsProgression(numbers, start, interval, end);
      r := Blocks(numbers);
  }

  lemma {:induction false} ProgressionAt(numbers: seq<nat>, start: nat, interval: nat, end: nat, i: nat)
    requires IsProgression(numbers, start, interval, end) && i < |numbers|
    ensures numbers[i] == start + i * interval
  {
    if i > 0 {
      ProgressionAt(numbers, start, interval, end, i - 1);
      assert numbers[i - 1 + 1] == numbers[i - 1] + interval;
      assert i * interval == (i - 1) * interval + interval;
    }
  }

  /** There is one progression from `start` to `end`; its length and its members in closed form. So an expansion
      overflows exactly when the step after the last block at or below `end` leaves 64 bits, never if `end + interval`
      fits. */
  lemma {:induction false} ProgressionShape(numbers: seq<nat>, start: nat, interval: nat, end: nat)
    requires interval > 0 && IsProgression(numbers, start, interval, end)
    ensures |numbers| == (end - start) / interval + 1
    ensures forall i :: 0 <= i < |numbers| ==> numbers[i] == start + i * interval
    ensures numbers[|numbers| - 1] <= end
  {
    var last := |numbers| - 1;
    forall i | 0 <= i < |numbers| ensures numbers[i] == start + i * interval {
      ProgressionAt(numbers, start, interval, end, i);
    }
    DivUnique(end - start, interval, last);
  }
}
