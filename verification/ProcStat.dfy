/** Reading a process's parent and start time out of its status line, whose second
    field is text the process chose itself, and walking up its ancestors. */
module ProcStat {
  import opened Prelude
  import opened Identity

  // ----- the text

  /** The Unicode White_Space property. */
  predicate IsSpace(c: char) {
    '\U{0009}' <= c <= '\U{000D}' || c == ' ' || c == '\U{0085}' || c == '\U{00A0}' || c == '\U{1680}'
    || '\U{2000}' <= c <= '\U{200A}' || c == '\U{2028}' || c == '\U{2029}' || c == '\U{202F}' || c == '\U{205F}' || c == '\U{3000}'
  }

  /** What follows the last `mark` in a text. */
  function AfterLast(text: string, mark: char): Option<string> {
    if text == "" then None
    else
      var later := AfterLast(text[1..], mark);
      if later.Some? then later else if text[0] == mark then Some(text[1..]) else None
  }

  /** How much of a text comes before its first white space. */
  function WordLength(text: string): (n: nat)
    ensures n <= |text|
    ensures forall k :: 0 <= k < n ==> !IsSpace(text[k])
    ensures n < |text| ==> IsSpace(text[n])
  {
    if text == "" || IsSpace(text[0]) then 0 else 1 + WordLength(text[1..])
  }

  /** The maximal stretches without white space, in order. */
  function Words(text: string): seq<string>
    decreases |text|
  {
    if text == "" then []
    else if IsSpace(text[0]) then Words(text[1..])
    else [text[..WordLength(text)]] + Words(text[WordLength(text)..])
  }

  /** The twenty-five characters of that property. */
  lemma SpacesExactly(c: char)
    ensures IsSpace(c) <==>
      c as int in [
        0x9, 0xA, 0xB, 0xC, 0xD, 0x20, 0x85, 0xA0, 0x1680, 0x2000, 0x2001, 0x2002, 0x2003, 0x2004, 0x2005, 0x2006, 0x2007,
        0x2008, 0x2009, 0x200A, 0x2028, 0x2029, 0x202F, 0x205F, 0x3000]
  {
  }

  function Joined(words: seq<string>): string {
    if words == [] then "" else words[0] + Joined(words[1..])
  }

  function WithoutSpaces(text: string): string {
    if text == "" then "" else (if IsSpace(text[0]) then "" else [text[0]]) + WithoutSpaces(text[1..])
  }

  lemma {:induction false} SpacelessStays(text: string, n: nat)
    requires n <= |text| && forall k :: 0 <= k < n ==> !IsSpace(text[k])
    ensures WithoutSpaces(text) == text[..n] + WithoutSpaces(text[n..])
  {
    if n > 0 {
      SpacelessStays(text[1..], n - 1);
      assert text[1..][n - 1..] == text[n..];
      assert text[..n] == [text[0]] + text[1..][..n - 1];
    }
  }

  /** Splitting into words loses nothing but white space, and no word is empty or holds any. */
  lemma {:induction false} WordsKeepTheText(text: string)
    ensures Joined(Words(text)) == WithoutSpaces(text)
    ensures forall word :: word in Words(text) ==> word != "" && forall k :: 0 <= k < |word| ==> !IsSpace(word[k])
    decreases |text|
  {
    if text != "" {
      if IsSpace(text[0]) {
        WordsKeepTheText(text[1..]);
      } else {
        var n := WordLength(text);
        WordsKeepTheText(text[n..]);
        SpacelessStays(text, n);
        assert Words(text)[1..] == Words(text[n..]);
      }
    }
  }

  predicate IsDigit(c: char) { '0' <= c <= '9' }

  function DigitValue(c: char): nat
    requires IsDigit(c)
  {
    c as int - '0' as int
  }

  /** The number a run of decimal digits writes. */
  function DigitsValue(digits: string): nat
    requires forall k :: 0 <= k < |digits| ==> IsDigit(digits[k])
  {
    if digits == "" then 0
    else 10 * DigitsValue(digits[..|digits| - 1]) + DigitValue(digits[|digits| - 1])
  }

  predicate AllDigits(digits: string) { digits != "" && forall k :: 0 <= k < |digits| ==> IsDigit(digits[k]) }

  /** An unsigned integer below `limit`: an optional plus sign, then at least one
      digit and nothing else. */
  function ParseUnsigned(text: string, limit: nat): Option<nat> {
    var digits := if text != "" && text[0] == '+' then text[1..] else text;
    if !AllDigits(digits) then None
    else if DigitsValue(digits) < limit then Some(DigitsValue(digits)) else None
  }

  predicate Writes(digits: string, n: nat) { AllDigits(digits) && DigitsValue(digits) == n }

  /** A text parses to a number exactly if the number is below the limit and the text is
      decimal digits that write it, perhaps after one plus sign. */
  lemma ParsesExactly(text: string, limit: nat, n: nat)
    ensures ParseUnsigned(text, limit) == Some(n) <==>
      n < limit && (Writes(text, n) || (text != "" && text[0] == '+' && Writes(text[1..], n)))
  {
    if text != "" && text[0] == '+' {
      assert !IsDigit(text[0]);
    }
  }

  // ----- the status line

  datatype StatFields = StatFields(ppid: u32, starttime: u64)

  datatype StatError = NoClosingParenthesis | MissingPpid | BadPpid | MissingStarttime | BadStarttime

  /** Field N of the line is word N - 3 of what follows the last parenthesis. */
  function ParseStat(raw: string): Result<StatFields, StatError> {
    match AfterLast(raw, ')')
    case None => Err(NoClosingParenthesis)
    case Some(afterName) => FieldsOf(Words(afterName))
  }

  function FieldsOf(words: seq<string>): Result<StatFields, StatError> {
    if |words| <= 1 then Err(MissingPpid)
    else
      var ppid := ParseUnsigned(words[1], U32_LIMIT);
      if ppid.None? then Err(BadPpid)
      else if |words| <= 19 then Err(MissingStarttime)
      else
        var starttime := ParseUnsigned(words[19], U64_LIMIT);
        if starttime.None? then Err(BadStarttime) else Ok(StatFields(ppid.value, starttime.value))
  }

  /** A line that does not parse names the first thing wrong with it, of its last
      parenthesis, the fourth field and the twenty-second, in this order. */
  lemma FirstFaultNamed(raw: string)
    ensures ParseStat(raw) == Err(NoClosingParenthesis) <==> ')' !in raw
    ensures AfterLast(raw, ')').Some? ==>
      var words := Words(AfterLast(raw, ')').value);
      && (ParseStat(raw) == Err(MissingPpid) <==> |words| < 2)
      && (ParseStat(raw) == Err(BadPpid) <==> |words| >= 2 && ParseUnsigned(words[1], 0x1_0000_0000).None?)
      && (ParseStat(raw) == Err(MissingStarttime) <==> 2 <= |words| < 20 && ParseUnsigned(words[1], 0x1_0000_0000).Some?)
      && (ParseStat(raw) == Err(BadStarttime) <==>
            && |words| >= 20 && ParseUnsigned(words[1], 0x1_0000_0000).Some?
            && ParseUnsigned(words[19], 0x1_0000_0000_0000_0000).None?)
  {
    NoMark(raw, ')');
  }

  // ----- what the kernel writes

  function Decimal(n: nat): (digits: string)
    ensures digits != ""
    ensures forall k :: 0 <= k < |digits| ==> IsDigit(digits[k])
  {
    var last := [('0' as int + n % 10) as char];
    if n < 10 then last else Decimal(n / 10) + last
  }

  /** Something a line can carry between spaces after the name: a sign, digits, a
      state letter; never white space or a parenthesis. */
  predicate IsWord(word: string) {
    word != "" && forall k :: 0 <= k < |word| ==> !IsSpace(word[k]) && word[k] != ')'
  }

  predicate AreWords(words: seq<string>) {
    forall k :: 0 <= k < |words| ==> IsWord(words[k])
  }

  function Spaced(words: seq<string>): string {
    if words == [] then "" else " " + words[0] + Spaced(words[1..])
  }

  /** The line of proc_pid_stat(5): the pid, the name in parentheses, and the
      remaining fields from the third on. */
  function Render(pid: u32, name: string, words: seq<string>): string {
    Decimal(pid) + " (" + name + ")" + Spaced(words) + "\n"
  }

  // ----- reading back what was written

  lemma {:induction false} DecimalReadsBack(n: nat)
    ensures DigitsValue(Decimal(n)) == n
  {
    if n < 10 {
      assert Decimal(n)[..0] == "";
    } else {
      DecimalReadsBack(n / 10);
      assert Decimal(n)[..|Decimal(n)| - 1] == Decimal(n / 10);
    }
  }

  /** A number written in decimal reads back exactly when it fits. */
  lemma DecimalParses(n: nat, limit: nat)
    ensures ParseUnsigned(Decimal(n), limit) == if n < limit then Some(n) else None
  {
    DecimalReadsBack(n);
    assert IsDigit(Decimal(n)[0]);
  }

  lemma {:induction false} LastMark(before: string, after: string, mark: char)
    requires mark !in after
    ensures AfterLast(before + [mark] + after, mark) == Some(after)
  {
    var text := before + [mark] + after;
    if before == "" {
      assert text[1..] == after;
      NoMark(after, mark);
    } else {
      LastMark(before[1..], after, mark);
      assert text[1..] == before[1..] + [mark] + after;
    }
  }

  /** There is nothing after the last mark exactly when there is no mark. */
  lemma {:induction false} NoMark(text: string, mark: char)
    ensures AfterLast(text, mark) == None <==> mark !in text
  {
    if text != "" {
      NoMark(text[1..], mark);
      assert text == [text[0]] + text[1..];
    }
  }

  lemma {:induction false} FirstWord(word: string, rest: string)
    requires forall k :: 0 <= k < |word| ==> !IsSpace(word[k])
    requires rest != "" && IsSpace(rest[0])
    ensures WordLength(word + rest) == |word|
  {
    if word == "" {
      assert word + rest == rest;
    } else {
      FirstWord(word[1..], rest);
      assert (word + rest)[1..] == word[1..] + rest;
    }
  }

  lemma WordThenRest(word: string, rest: string)
    requires IsWord(word) && rest != "" && IsSpace(rest[0])
    ensures Words(" " + word + rest) == [word] + Words(rest)
  {
    var text := word + rest;
    FirstWord(word, rest);
    assert text[..|word|] == word && text[|word|..] == rest;
    assert (" " + word + rest)[1..] == text;
  }

  lemma {:induction false} SpacedSplits(words: seq<string>)
    requires AreWords(words)
    ensures Words(Spaced(words) + "\n") == words
  {
    if words == [] {
      assert (Spaced(words) + "\n")[1..] == "";
    } else {
      var rest := Spaced(words[1..]) + "\n";
      SpacedSplits(words[1..]);
      assert Spaced(words) + "\n" == " " + words[0] + rest;
      assert rest[0] == ' ' || rest[0] == '\n';
      assert IsWord(words[0]);
      WordThenRest(words[0], rest);
    }
  }

  lemma {:induction false} SpacedHasNoParenthesis(words: seq<string>)
    requires AreWords(words)
    ensures ')' !in Spaced(words)
  {
    if words != [] {
      SpacedHasNoParenthesis(words[1..]);
      assert IsWord(words[0]);
    }
  }

  /** Whatever name a process gives itself, with any parentheses, spaces and line
      breaks in it, the parser sees exactly the fields the kernel wrote after it. */
  lemma RenderedFieldsAreSeen(pid: u32, name: string, words: seq<string>)
    requires AreWords(words)
    ensures ParseStat(Render(pid, name, words)) == FieldsOf(words)
  {
    SpacedSplits(words);
    SpacedHasNoParenthesis(words);
    var before, after := Decimal(pid) + " (" + name, Spaced(words) + "\n";
    assert Render(pid, name, words) == before + [')'] + after;
    LastMark(before, after, ')');
  }

  /** A full line reads back as the parent and the start time it was written with:
      the fourth and the twenty-second field. */
  lemma StatLineReadsBack(
    pid: u32, name: string, state: string, ppid: u32, middle: seq<string>, starttime: u64, others: seq<string>)
    requires IsWord(state) && AreWords(middle) && AreWords(others) && |middle| == 17
    ensures ParseStat(Render(pid, name, [state, Decimal(ppid)] + middle + [Decimal(starttime)] + others))
         == Ok(StatFields(ppid, starttime))
  {
    var words := [state, Decimal(ppid)] + middle + [Decimal(starttime)] + others;
    DecimalIsWord(ppid);
    DecimalIsWord(starttime);
    RenderedFieldsAreSeen(pid, name, words);
    DecimalParses(ppid, U32_LIMIT);
    DecimalParses(starttime, U64_LIMIT);
    assert words[1] == Decimal(ppid) && words[19] == Decimal(starttime);
  }

  lemma DecimalIsWord(n: nat)
    ensures IsWord(Decimal(n))
  {
    var digits := Decimal(n);
    forall k | 0 <= k < |digits|
      ensures !IsSpace(digits[k]) && digits[k] != ')'
    {
      assert IsDigit(digits[k]);
    }
  }

  // ----- the ancestors

  const MAX_ANCESTRY_DEPTH: nat := 32

  /** What each process's status line says, for those whose line can be read and
      parsed. */
  type Table = map<u32, StatFields>

  function ParentOf(stats: Table, pid: u32): Option<u32> {
    if pid in stats then Some(stats[pid].ppid) else None
  }

  function ProcessStart(stats: Table, pid: u32): Evidence<u64> {
    if pid in stats then Present(stats[pid].starttime, KernelObserved) else Missing("unreadable")
  }

  function ExecutablePath(links: map<u32, string>, pid: u32): Evidence<string> {
    if pid in links then Present(links[pid], KernelObserved) else Missing("unreadable")
  }

  /** Each process is the parent of the one before it, the first of `from`. */
  predicate Climbs(stats: Table, from: u32, pids: seq<u32>)
    decreases |pids|
  {
    pids == [] || (ParentOf(stats, from) == Some(pids[0]) && Climbs(stats, pids[0], pids[1..]))
  }

  function Top(from: u32, pids: seq<u32>): u32 {
    if pids == [] then from else pids[|pids| - 1]
  }

  /** Processes met for the first time: none is process 0, none was seen before, and
      none comes twice. */
  predicate AllNew(seen: set<u32>, pids: seq<u32>) {
    && (forall k :: 0 <= k < |pids| ==> pids[k] != 0 && pids[k] !in seen)
    && (forall j, k :: 0 <= j < k < |pids| ==> pids[j] != pids[k])
  }

  /** Nothing can be added: the walk is as long as it may be, or the next parent cannot
      be read, is process 0, or was met before. */
  predicate Ended(stats: Table, from: u32, seen: set<u32>, left: nat, pids: seq<u32>) {
    || |pids| == left
    || match ParentOf(stats, Top(from, pids))
       case None => true
       case Some(parent) => parent == 0 || parent in seen || parent in pids
  }

  predicate IsWalk(stats: Table, from: u32, seen: set<u32>, left: nat, pids: seq<u32>) {
    |pids| <= left && Climbs(stats, from, pids) && AllNew(seen, pids) && Ended(stats, from, seen, left, pids)
  }

  function Walk(stats: Table, from: u32, seen: set<u32>, left: nat): seq<u32>
    decreases left
  {
    if left == 0 then []
    else match ParentOf(stats, from)
      case None => []
      case Some(parent) =>
        if parent == 0 || parent in seen then []
        else [parent] + Walk(stats, parent, seen + {parent}, left - 1)
  }

  /** The walk is the one way up that climbs parent by parent, meets nobody twice, and
      cannot be continued. */
  lemma {:induction false} OnlyOneWalk(stats: Table, from: u32, seen: set<u32>, left: nat, pids: seq<u32>)
    ensures IsWalk(stats, from, seen, left, pids) <==> pids == Walk(stats, from, seen, left)
    decreases left
  {
    if pids != [] && left > 0 && ParentOf(stats, from) == Some(pids[0]) && pids[0] != 0 && pids[0] !in seen {
      var parent, above := pids[0], pids[1..];
      OnlyOneWalk(stats, parent, seen + {parent}, left - 1, above);
      FirstStep(stats, from, seen, left, pids);
      assert pids == [parent] + above;
    }
  }

  lemma FirstStep(stats: Table, from: u32, seen: set<u32>, left: nat, pids: seq<u32>)
    requires pids != [] && left > 0 && ParentOf(stats, from) == Some(pids[0]) && pids[0] != 0 && pids[0] !in seen
    ensures IsWalk(stats, from, seen, left, pids)
       <==> IsWalk(stats, pids[0], seen + {pids[0]}, left - 1, pids[1..])
  {
    var parent, above := pids[0], pids[1..];
    assert pids == [parent] + above;
    assert AllNew(seen, pids) <==> AllNew(seen + {parent}, above) by {
      if AllNew(seen + {parent}, above) {
        forall j, k | 0 <= j < k < |pids|
          ensures pids[j] != pids[k]
        {
          assert pids[k] == above[k - 1];
          if j > 0 {
            assert pids[j] == above[j - 1];
          }
        }
      }
      if AllNew(seen, pids) {
        forall k | 0 <= k < |above|
          ensures above[k] != 0 && above[k] !in seen + {parent}
        {
          assert above[k] == pids[k + 1];
        }
      }
    }
    assert Top(from, pids) == Top(parent, above);
    assert forall p: u32 :: p in pids <==> p == parent || p in above;
  }

  function Pids(ancestors: seq<ProcessAncestor>): (pids: seq<u32>)
    ensures |pids| == |ancestors|
    ensures forall k :: 0 <= k < |pids| ==> pids[k] == ancestors[k].pid
  {
    seq(|ancestors|, k requires 0 <= k < |ancestors| => ancestors[k].pid)
  }

  /** The loop as it is written, for at most `depth` hops. */
  method Climb(stats: Table, links: map<u32, string>, start: u32, depth: nat) returns (found: seq<ProcessAncestor>)
    ensures Pids(found) == Walk(stats, start, {start}, depth)
    ensures forall a :: a in found ==>
      a.start == ProcessStart(stats, a.pid) && a.executablePath == ExecutablePath(links, a.pid)
  {
    found := [];
    var seen, current := {start}, start;
    for i := 0 to depth
      invariant Pids(found) + Walk(stats, current, seen, depth - i) == Walk(stats, start, {start}, depth)
      invariant forall a :: a in found ==>
        a.start == ProcessStart(stats, a.pid) && a.executablePath == ExecutablePath(links, a.pid)
    {
      var parent := ParentOf(stats, current);
      if parent.None? {
        break;
      }
      if parent.value == 0 || parent.value in seen {
        break;
      }
      seen := seen + {parent.value};
      ghost var before := Pids(found);
      found := found + [
        ProcessAncestor(parent.value, ProcessStart(stats, parent.value), ExecutablePath(links, parent.value))];
      assert Pids(found) == before + [parent.value];
      current := parent.value;
    }
    assert Pids(found) == Walk(stats, start, {start}, depth);
  }

  /** Whoever is below place `k` of a way up. */
  function Below(start: u32, found: seq<ProcessAncestor>, k: nat): u32
    requires k <= |found|
  {
    if k == 0 then start else found[k - 1].pid
  }

  /** Each process is the parent in the status line of the one below it. */
  lemma {:induction false} ClimbsByLines(stats: Table, start: u32, pids: seq<u32>, k: nat)
    requires Climbs(stats, start, pids) && k < |pids|
    ensures var below := if k == 0 then start else pids[k - 1]; below in stats && stats[below].ppid == pids[k]
    decreases |pids|
  {
    if k > 0 {
      ClimbsByLines(stats, pids[0], pids[1..], k - 1);
    }
  }

  /** Everything found above a process, at most thirty-two hops of it: each is the parent
      in the line of the one below, nobody is met twice, and the way ends only where a line
      cannot be read or leads to process 0 or back. Start times are those of the lines, and
      paths those of the links, as the kernel shows them. */
  method Ancestry(stats: Table, links: map<u32, string>, start: u32) returns (found: seq<ProcessAncestor>)
    ensures IsWalk(stats, start, {start}, 32, Pids(found))
    ensures |found| <= 32
    ensures forall k :: 0 <= k < |found| ==>
      Below(start, found, k) in stats && stats[Below(start, found, k)].ppid == found[k].pid && found[k].pid !in {0, start}
    ensures forall j, k :: 0 <= j < k < |found| ==> found[j].pid != found[k].pid
    ensures |found| == 32 ||
      var top := Below(start, found, |found|);
      top !in stats || stats[top].ppid in {0, start} || stats[top].ppid in Pids(found)
    ensures forall a :: a in found ==>
      && (if a.pid in stats then a.start == Present(stats[a.pid].starttime, KernelObserved) else a.start.Missing?)
      && (if a.pid in links then a.executablePath == Present(links[a.pid], KernelObserved) else a.executablePath.Missing?)
  {
    found := Climb(stats, links, start, MAX_ANCESTRY_DEPTH);
    OnlyOneWalk(stats, start, {start}, MAX_ANCESTRY_DEPTH, Pids(found));
    forall k | 0 <= k < |found|
      ensures Below(start, found, k) in stats && stats[Below(start, found, k)].ppid == found[k].pid
    {
      ClimbsByLines(stats, start, Pids(found), k);
    }
    assert forall k :: 0 <= k < |found| ==> Pids(found)[k] == found[k].pid;
  }
}
