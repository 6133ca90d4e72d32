/** The restore batch, line by line: one table, committed at its end, that
    declares both chains before it fills them. */
module Batch {
  import opened Text
  import opened Config
  import opened Iptables
  import opened Codec

  /** The line that makes a restore replace what a chain holds. */
  function Declaration(chain: string): string {
    ":" + chain + " - [0:0]"
  }

  predicate IsRuleLine(line: string) {
    "-A " <= line
  }

  /** One line declares the chain, and no rule line stands before it. */
  ghost predicate DeclaredOnce(lines: seq<string>, chain: string) {
    exists d :: 0 <= d < |lines| && DeclaredAt(lines, chain, d)
  }

  ghost predicate DeclaredAt(lines: seq<string>, chain: string, d: nat)
    requires d < |lines|
  {
    && (forall i | 0 <= i < |lines| :: lines[i] == Declaration(chain) <==> i == d)
    && forall i | 0 <= i <= d :: !IsRuleLine(lines[i])
  }

  /** A batch that commits one table in which the chain is declared once, before
      all rules: the chain then holds the rules of the batch and nothing else. To a
      chain that a batch does not declare, its rules would only be added. */
  ghost predicate Replaces(batch: string, chain: string) {
    var lines := Lines(batch);
    && |lines| >= 2 && lines[0] == "*filter" && lines[|lines| - 1] == "COMMIT"
    && DeclaredOnce(lines, chain)
  }

  lemma LinesOfBatch(fw: Firewall, production: AddrMap, maintenance: AddrMap)
    requires ChainsDiffer(fw) && MapOfHosts(production) && MapOfHosts(maintenance)
    ensures
      Lines(BatchOf(fw, production, maintenance)) ==
      ["*filter", Declaration(fw.production), Declaration(fw.maintenance)]
      + RuleLines(fw.production, RuleTexts(Accept(fw.port), production))
      + RuleLines(fw.maintenance, RuleTexts(Drop, maintenance))
      + ["COMMIT"]
  {
    RuleTextsAreSpecs(Accept(fw.port), production);
    RuleTextsAreSpecs(Drop, maintenance);
    HeadHasNoRules(fw, fw.production);
    LinesWithoutNewline(fw.production, RuleTexts(Accept(fw.port), production));
    LinesWithoutNewline(fw.maintenance, RuleTexts(Drop, maintenance));
    LinesOfUnlines(BatchHead(fw) + RuleLines(fw.production, RuleTexts(Accept(fw.port), production))
                   + RuleLines(fw.maintenance, RuleTexts(Drop, maintenance)) + ["COMMIT"]);
  }

  lemma DeclarationsDiffer(a: string, b: string)
    requires a != b
    ensures Declaration(a) != Declaration(b)
  {
    assert Declaration(a)[1..|a| + 1] == a && Declaration(b)[1..|b| + 1] == b;
  }

  lemma OtherStart(line: string)
    requires line != "" && line[0] != '-'
    ensures !IsRuleLine(line)
  {}

  /** The lines of a table with two declarations. */
  lemma TableShape(lines: seq<string>, a: string, b: string, rulesA: seq<string>, rulesB: seq<string>)
    requires a != b
    requires forall l | l in rulesA :: RulePrefix(a) <= l
    requires forall l | l in rulesB :: RulePrefix(b) <= l
    requires lines == ["*filter", Declaration(a), Declaration(b)] + rulesA + rulesB + ["COMMIT"]
    ensures DeclaredAt(lines, a, 1) && DeclaredAt(lines, b, 2)
    ensures forall i | 3 <= i < |lines| - 1 :: RulePrefix(a) <= lines[i] || RulePrefix(b) <= lines[i]
  {
    DeclarationsDiffer(a, b);
    assert Declaration(a)[0] == Declaration(b)[0] == ':';
    OtherStart("*filter");
    OtherStart(Declaration(a));
    OtherStart(Declaration(b));
    forall i | 3 <= i < |lines| - 1
      ensures (RulePrefix(a) <= lines[i] || RulePrefix(b) <= lines[i]) && lines[i][0] == '-'
    {
      assert lines[i] in rulesA || lines[i] in rulesB;
    }
  }

  lemma RuleLinesStart(chain: string, specs: seq<string>)
    ensures forall l | l in RuleLines(chain, specs) :: RulePrefix(chain) <= l
  {}

  /** The batch starts its table and commits it, declares each of the two chains
      on exactly one line before every rule, and else holds only rules of these
      chains. */
  lemma BatchShape(fw: Firewall, production: AddrMap, maintenance: AddrMap)
    requires ChainsDiffer(fw) && MapOfHosts(production) && MapOfHosts(maintenance)
    ensures
      var batch := BatchOf(fw, production, maintenance);
      var lines := Lines(batch);
      && Replaces(batch, fw.production) && Replaces(batch, fw.maintenance)
      && forall i | 0 < i < |lines| - 1 ::
           || lines[i] == Declaration(fw.production) || lines[i] == Declaration(fw.maintenance)
           || RulePrefix(fw.production) <= lines[i] || RulePrefix(fw.maintenance) <= lines[i]
  {
    var rulesP := RuleLines(fw.production, RuleTexts(Accept(fw.port), production));
    var rulesM := RuleLines(fw.maintenance, RuleTexts(Drop, maintenance));
    LinesOfBatch(fw, production, maintenance);
    RuleLinesStart(fw.production, RuleTexts(Accept(fw.port), production));
    RuleLinesStart(fw.maintenance, RuleTexts(Drop, maintenance));
    TableShape(Lines(BatchOf(fw, production, maintenance)), fw.production, fw.maintenance, rulesP, rulesM);
  }
}
