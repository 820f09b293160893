/**
  The rules file between the two processes: what the Go reader makes of any
  text, and when it makes of a dumped table what the table held.
 */
module RulesFile {
  import opened Text
  import opened FirewallTable

  /** The policy a scan of the file sets up: a cap if the first line parsed, then the rules. */
  datatype Policy = Policy(max: Option<int>, rules: seq<string>)

  /** The scan loop over the lines of the file; without a valid header it stops at line 0. */
  function ReadPolicy(text: string): Policy {
    var lines := Lines(text);
    if lines == [] then Policy(None, [])
    else
      var header := ParseInt(TrimSpace(lines[0]));
      if header.None? then Policy(None, []) else Policy(header, TrimAll(lines[1..]))
  }

  function TrimAll(lines: seq<string>): (r: seq<string>)
    ensures |r| == |lines|
    ensures forall i :: 0 <= i < |lines| ==> r[i] == TrimSpace(lines[i])
  {
    seq(|lines|, i requires 0 <= i < |lines| => TrimSpace(lines[i]))
  }

  lemma TrimAllPrefix(lines: seq<string>, i: nat)
    requires 1 <= i < |lines|
    ensures TrimAll(lines[1..i + 1]) == TrimAll(lines[1..i]) + [TrimSpace(lines[i])]
  {
    assert lines[1..i + 1] == lines[1..i] + [lines[i]];
  }

  /** One rule per line comes back as that rule. */
  predicate OneLine(rule: string) {
    '\n' !in rule && Trimmed(rule)
  }

  lemma PrintedIntIsOneLine(n: CInt)
    ensures OneLine(PrintInt(n)) && DropCarriageReturn(PrintInt(n)) == PrintInt(n)
  {
    var s := PrintInt(n);
    assert forall i :: 0 <= i < |s| ==> IsDigit(s[i]) || s[i] == '-';
    assert forall c: char :: IsDigit(c) || c == '-' ==> !IsSpace(c);
  }

  /** The dumped header is always read back, whatever follows it. */
  lemma {:induction false} DumpedHeader(max: CInt, body: string)
    ensures ReadPolicy(PrintInt(max) + "\n" + body) == Policy(Some(max), TrimAll(Lines(body)))
  {
    PrintedIntIsOneLine(max);
    LinesOfPrintedLine(PrintInt(max), body);
    TrimSpaceFixesTrimmed(PrintInt(max));
    PrintedIntParsesBack(max);
    var lines := Lines(PrintInt(max) + "\n" + body);
    assert lines[1..] == Lines(body);
  }

  function CountNewlines(rules: seq<string>): nat {
    if |rules| == 0 then 0 else Newlines(rules[0]) + CountNewlines(rules[1..])
  }

  lemma {:induction false} RuleLinesNewlines(rules: seq<string>)
    ensures Newlines(RuleLines(rules)) == |rules| + CountNewlines(rules)
    ensures var text := RuleLines(rules); |text| > 0 ==> text[|text| - 1] == '\n'
  {
    if |rules| > 0 {
      var rest := RuleLines(rules[1..]);
      RuleLinesNewlines(rules[1..]);
      NewlinesConcat(rules[0] + "\n", rest);
      NewlinesConcat(rules[0], "\n");
      assert Newlines("\n") == 1;
    }
  }

  lemma {:induction false} NoneHasNewline(rules: seq<string>)
    ensures CountNewlines(rules) == 0 <==> forall r <- rules :: '\n' !in r
  {
    if |rules| > 0 {
      NoNewlines(rules[0]);
      NoneHasNewline(rules[1..]);
      assert rules == [rules[0]] + rules[1..];
    }
  }

  lemma {:induction false} LinesOfRules(rules: seq<string>)
    requires forall r <- rules :: '\n' !in r
    ensures TrimAll(Lines(RuleLines(rules))) == TrimAll(rules)
  {
    if |rules| > 0 {
      LinesOfPrintedLine(rules[0], RuleLines(rules[1..]));
      TrimAfterCarriageReturn(rules[0]);
      LinesOfRules(rules[1..]);
      var lines := Lines(RuleLines(rules));
      assert lines == [DropCarriageReturn(rules[0])] + Lines(RuleLines(rules[1..]));
      forall i | 0 <= i < |rules|
        ensures |lines| == |rules| && TrimSpace(lines[i]) == TrimSpace(rules[i])
      {
        assert |TrimAll(Lines(RuleLines(rules[1..])))| == |rules| - 1;
        if i > 0 {
          assert lines[i] == Lines(RuleLines(rules[1..]))[i - 1];
          assert TrimAll(Lines(RuleLines(rules[1..])))[i - 1] == TrimAll(rules[1..])[i - 1];
        }
      }
    }
  }

  /** Printed rules are read back exactly when each of them is a single trimmed line. */
  lemma {:induction false} RulesReadBackIff(rules: seq<string>)
    ensures TrimAll(Lines(RuleLines(rules))) == rules <==> forall r <- rules :: OneLine(r)
  {
    var read := TrimAll(Lines(RuleLines(rules)));
    RuleLinesNewlines(rules);
    LineCount(RuleLines(rules));
    NoneHasNewline(rules);
    if forall r <- rules :: '\n' !in r {
      LinesOfRules(rules);
      TrimmedRules(rules);
    }
  }

  lemma TrimmedRules(rules: seq<string>)
    requires forall r <- rules :: '\n' !in r
    ensures TrimAll(rules) == rules <==> forall r <- rules :: OneLine(r)
  {
    forall i | 0 <= i < |rules|
      ensures TrimAll(rules)[i] == rules[i] <==> OneLine(rules[i])
    {
      TrimSpaceFixesTrimmed(rules[i]);
    }
  }

  /**
    The round trip. The cap is always read back. With a negative cap the rules
    come back, all and in order, exactly when each of them is a single line
    without surrounding white space; otherwise the reader gets no rule.
   */
  lemma {:induction false} RulesFileRoundTrip(max: CInt, rules: seq<string>)
    ensures var p := ReadPolicy(DumpText(max, rules));
      && p.max == Some(max)
      && (max >= 0 ==> p.rules == [])
      && (max < 0 ==> (p.rules == rules <==> forall r <- rules :: OneLine(r)))
  {
    DumpedHeader(max, if max < 0 then RuleLines(rules) else "");
    RulesReadBackIff(rules);
  }

  /** A file whose first line is not a number leaves the reader without a cap and without rules. */
  lemma BadHeaderReadsNothing(line: string, body: string)
    requires '\n' !in line
    ensures ReadPolicy(line + "\n" + body) == Policy(None, []) <==> ParseInt(TrimSpace(line)).None?
  {
    LinesOfPrintedLine(line, body);
    TrimAfterCarriageReturn(line);
  }
}
