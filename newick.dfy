/**
 * Reading a tree from Newick text (src/tree.cpp): `newick_to_bp` turns
 * the parentheses and commas into tokens, `tokenize` cuts the text into
 * structure characters and node labels, `set_node_metadata` splits a
 * label into name and length, and `newick_to_metadata` walks the labels
 * onto the nodes they describe.
 */
module Newick {
  import opened Parens
  import opened BPTrees
  import opened Options

  /** The flags `newick_to_bp` carries from one character to the next. */
  datatype BpState = BpState(structure: seq<bool>, lastStructure: char, singleDescendent: bool, inQuote: bool)

  const BpStart := BpState([], '\0', false, false)

  /** The tokens one character appends, and the new flags. */
  function BpStep(st: BpState, c: char): (r: BpState)
    ensures |st.structure| <= |r.structure| <= |st.structure| + 3 && r.structure[..|st.structure|] == st.structure
  {
    var inQuote := if c == '\'' then !st.inQuote else st.inQuote;
    if inQuote then st.(inQuote := true)
    else if c == '(' then
      BpState(st.structure + [true], c, true, false)
    else if c == ')' then
      if st.singleDescendent || st.lastStructure == ',' then
        BpState(st.structure + [true, false, false], c, false, false)
      else
        BpState(st.structure + [false], c, st.singleDescendent, false)
    else if c == ',' then
      BpState(if st.lastStructure != ')' then st.structure + [true, false] else st.structure, c, false, false)
    else
      st.(inQuote := false)
  }

  /** The state after reading `s` from position `i` up to its end or a NUL. */
  function BpRun(s: string, i: nat, st: BpState): BpState
    requires i <= |s|
    decreases |s| - i
  {
    if i == |s| || s[i] == '\0' then st else BpRun(s, i + 1, BpStep(st, s[i]))
  }

  /**
   * One pass over the characters, pushing tokens: `(` opens a node; `)`
   * first adds a tip when it follows `(` or `,` directly, then closes;
   * `,` adds a tip unless it follows `)`. Text inside single quotes is
   * skipped. The C string ends at its first NUL.
   */
  method NewickToBp(newick: string) returns (structure: seq<bool>)
    ensures structure == BpRun(newick, 0, BpStart).structure
  {
    structure := [];
    var lastStructure := '\0';
    var potentialSingleDescendent := false;
    var inQuote := false;
    var i := 0;
    while i < |newick| && newick[i] != '\0'
      invariant i <= |newick|
      invariant BpRun(newick, 0, BpStart)
                == BpRun(newick, i, BpState(structure, lastStructure, potentialSingleDescendent, inQuote))
    {
      var c := newick[i];
      if c == '\'' {
        inQuote := !inQuote;
      }
      if !inQuote {
        if c == '(' {
          structure := structure + [true];
          lastStructure := c;
          potentialSingleDescendent := true;
        } else if c == ')' {
          if potentialSingleDescendent || lastStructure == ',' {
            structure := structure + [true, false, false];
            potentialSingleDescendent := false;
          } else {
            structure := structure + [false];
          }
          lastStructure := c;
        } else if c == ',' {
          if lastStructure != ')' {
            structure := structure + [true, false];
          }
          potentialSingleDescendent := false;
          lastStructure := c;
        }
      }
      i := i + 1;
    }
  }

  /** The parentheses of `s` from position `i` that lie outside quotes, `(` as true. */
  function ParenTokens(s: string, i: nat, inQuote: bool): (r: seq<bool>)
    requires i <= |s|
    ensures |r| <= |s| - i
    decreases |s| - i
  {
    if i == |s| || s[i] == '\0' then []
    else
      var q := if s[i] == '\'' then !inQuote else inQuote;
      ParenToken(q, s[i]) + ParenTokens(s, i + 1, q)
  }

  /** The parenthesis token, if any, that `c` contributes once the quote flag is `q`. */
  function ParenToken(q: bool, c: char): seq<bool> {
    if !q && c == '(' then [true] else if !q && c == ')' then [false] else []
  }

  /**
   * The tokens one character appends move the excess as its parenthesis
   * does, and dip below the starting level only as far as a `)` takes it.
   */
  lemma BpPieceDepth(st: BpState, c: char)
    ensures var r := BpStep(st, c);
            var b := r.structure[|st.structure|..];
            var tok := ParenToken(r.inQuote, c);
            && r.inQuote == (if c == '\'' then !st.inQuote else st.inQuote)
            && Depth(b, |b|) == Depth(tok, |tok|)
            && forall k :: 0 <= k <= |b| ==> Depth(b, k) >= (if Depth(tok, |tok|) < 0 then -1 else 0)
  {
    var r := BpStep(st, c);
    var b := r.structure[|st.structure|..];
    if b == [true, false, false] {
      assert Depth(b, 1) == 1 && Depth(b, 2) == 0 && Depth(b, 3) == -1;
    } else if b == [true, false] {
      assert Depth(b, 1) == 1 && Depth(b, 2) == 0;
    } else if b == [true] {
      assert Depth(b, 1) == 1;
    } else if b == [false] {
      assert Depth(b, 1) == -1;
    }
  }

  /** One character changes the excess of the tokens as its parenthesis does. */
  lemma BpStepDepth(st: BpState, c: char)
    requires PrefixNonNeg(st.structure)
    ensures var r := BpStep(st, c);
            var tok := ParenToken(r.inQuote, c);
            && r.inQuote == (if c == '\'' then !st.inQuote else st.inQuote)
            && Depth(r.structure, |r.structure|) == Depth(st.structure, |st.structure|) + Depth(tok, |tok|)
            && (Depth(st.structure, |st.structure|) + Depth(tok, |tok|) >= 0 ==> PrefixNonNeg(r.structure))
  {
    var r := BpStep(st, c);
    BpPieceDepth(st, c);
    var tok := ParenToken(r.inQuote, c);
    ConcatDepth(st.structure, r.structure[|st.structure|..], Depth(tok, |tok|));
    assert st.structure + r.structure[|st.structure|..] == r.structure;
  }

  /** Appending tokens that dip at most one level below their start keeps the prefix depths of a non-negative prefix. */
  lemma ConcatDepth(a: seq<bool>, b: seq<bool>, d: int)
    requires PrefixNonNeg(a)
    requires Depth(b, |b|) == d
    requires forall k :: 0 <= k <= |b| ==> Depth(b, k) >= (if d < 0 then -1 else 0)
    ensures Depth(a + b, |a + b|) == Depth(a, |a|) + d
    ensures Depth(a, |a|) + d >= 0 ==> PrefixNonNeg(a + b)
  {
    forall n | 0 <= n <= |a + b| ensures Depth(a + b, n) == if n <= |a| then Depth(a, n) else Depth(a, |a|) + Depth(b, n - |a|) {
      if n <= |a| {
        Rank1Prefix(a, b, n);
      } else {
        Rank1Concat(a, b, n - |a|);
      }
    }
    Rank1Concat(a, b, |b|);
  }

  lemma {:induction false} BpRunDepth(s: string, i: nat, st: BpState)
    requires i <= |s| && PrefixNonNeg(st.structure)
    requires var p := ParenTokens(s, i, st.inQuote);
             forall k :: 0 <= k <= |p| ==> Depth(st.structure, |st.structure|) + Depth(p, k) >= 0
    ensures var r := BpRun(s, i, st).structure;
            var p := ParenTokens(s, i, st.inQuote);
            PrefixNonNeg(r) && Depth(r, |r|) == Depth(st.structure, |st.structure|) + Depth(p, |p|)
    decreases |s| - i
  {
    if i < |s| && s[i] != '\0' {
      var st' := BpStep(st, s[i]);
      var q := if s[i] == '\'' then !st.inQuote else st.inQuote;
      var tok := ParenToken(q, s[i]);
      var rest := ParenTokens(s, i + 1, q);
      assert ParenTokens(s, i, st.inQuote) == tok + rest;
      SplitDepth(Depth(st.structure, |st.structure|), tok, rest);
      BpStepDepth(st, s[i]);
      BpRunDepth(s, i + 1, st');
    }
  }

  /** A lower bound on the prefix depths of `tok + rest` carries over to `rest` after `tok`. */
  lemma SplitDepth(d: int, tok: seq<bool>, rest: seq<bool>)
    requires forall k :: 0 <= k <= |tok + rest| ==> d + Depth(tok + rest, k) >= 0
    ensures d + Depth(tok, |tok|) >= 0
    ensures forall k :: 0 <= k <= |rest| ==> d + Depth(tok, |tok|) + Depth(rest, k) >= 0
    ensures Depth(tok + rest, |tok + rest|) == Depth(tok, |tok|) + Depth(rest, |rest|)
  {
    forall k | 0 <= k <= |rest| ensures Depth(tok + rest, |tok| + k) == Depth(tok, |tok|) + Depth(rest, k) {
      Rank1Concat(tok, rest, k);
    }
    assert Depth(rest, 0) == 0 && Depth(tok + rest, |tok| + 0) >= -d;
  }

  /**
   * When the parentheses outside quotes nest properly, the tokens are
   * balanced, so the tree's constructor accepts them.
   */
  lemma NewickBalanced(s: string)
    requires Balanced(ParenTokens(s, 0, false))
    ensures Balanced(BpRun(s, 0, BpStart).structure)
  {
    BpRunDepth(s, 0, BpStart);
  }

  /** Text between a pair of quotes adds no tokens and leaves the flags as they were. */
  lemma {:induction false} QuotedSkipped(s: string, i: nat, j: nat, st: BpState)
    requires i < j < |s| && !st.inQuote
    requires s[i] == '\'' && s[j] == '\''
    requires forall k :: i < k < j ==> s[k] != '\'' && s[k] != '\0'
    ensures BpRun(s, i, st) == BpRun(s, j + 1, st)
  {
    QuotedSkippedFrom(s, i + 1, j, st.(inQuote := true));
  }

  lemma {:induction false} QuotedSkippedFrom(s: string, k: nat, j: nat, st: BpState)
    requires k <= j < |s| && st.inQuote && s[j] == '\''
    requires forall m :: k <= m < j ==> s[m] != '\'' && s[m] != '\0'
    ensures BpRun(s, k, st) == BpRun(s, j + 1, st.(inQuote := false))
    decreases j - k
  {
    if k < j {
      QuotedSkippedFrom(s, k + 1, j, st);
    }
  }

  /** A label character outside quotes adds no tokens and keeps the flags. */
  lemma LabelSkipped(s: string, i: nat, st: BpState)
    requires i < |s| && !st.inQuote
    requires s[i] != '\'' && s[i] != '(' && s[i] != ')' && s[i] != ',' && s[i] != '\0'
    ensures BpRun(s, i, st) == BpRun(s, i + 1, st)
  {
  }

  /** The tree `(A:1,B:2)C:0;` is the root with two tips. */
  lemma NewickToBpExample()
    ensures BpRun("(A:1,B:2)C:0;", 0, BpStart).structure == [true, true, false, true, false, false]
  {
    var s := "(A:1,B:2)C:0;";
    var s1 := BpState([true], '(', true, false);
    var s2 := BpState([true, true, false], ',', false, false);
    var s3 := BpState([true, true, false, true, false, false], ')', false, false);
    assert [true] + [true, false] == s2.structure;
    assert s2.structure + [true, false, false] == s3.structure;
    assert BpRun(s, 13, s3) == s3;
    LabelSkipped(s, 12, s3);
    LabelSkipped(s, 11, s3);
    LabelSkipped(s, 10, s3);
    LabelSkipped(s, 9, s3);
    assert BpRun(s, 8, s2) == s3;
    LabelSkipped(s, 7, s2);
    LabelSkipped(s, 6, s2);
    LabelSkipped(s, 5, s2);
    assert BpRun(s, 4, s1) == s3;
    LabelSkipped(s, 3, s1);
    LabelSkipped(s, 2, s1);
    LabelSkipped(s, 1, s1);
  }

  predicate IsStructureCharacter(c: char) {
    c == '(' || c == ')' || c == ',' || c == ';'
  }

  /** Whether a scan that started outside quotes at `p` is inside quotes when it reaches `k`. */
  function QuotedAt(s: string, p: nat, k: nat): bool
    requires p <= k <= |s|
    decreases k - p
  {
    if k == p then false else QuotedAt(s, p, k - 1) != (s[k - 1] == '\'')
  }

  /** Position `k` ends the token begun at `p`: a structure character outside quotes. */
  predicate EndsToken(s: string, p: nat, k: nat)
    requires p <= k < |s|
  {
    IsStructureCharacter(s[k]) && !QuotedAt(s, p, k)
  }

  /** The text without newlines and quote characters. */
  function Strip(x: string): (r: string)
    ensures |r| <= |x|
  {
    if |x| == 0 then []
    else Strip(x[..|x| - 1]) + (if x[|x| - 1] == '\n' || x[|x| - 1] == '\'' then [] else [x[|x| - 1]])
  }

  /**
   * One pass of the scanning loop of `tokenize`, reading position `k`
   * with the quote flag and the token so far; the result is the token
   * and the position after the last character read.
   */
  function Scan(s: string, k: nat, end: nat, inQuote: bool, token: string): (string, nat)
    requires k < end <= |s|
    decreases end - k
  {
    var c := s[k];
    if c == '\n' || c == '\'' then
      var q := if c == '\'' then !inQuote else inQuote;
      if k + 1 == end then (token, end) else Scan(s, k + 1, end, q, token)
    else if IsStructureCharacter(c) && !inQuote then
      (if |token| == 0 then [c] else token, k + 1)
    else if k + 1 == end then (token + [c], end)
    else Scan(s, k + 1, end, inQuote, token + [c])
  }

  lemma StripSnoc(x: string, c: char)
    ensures Strip(x + [c]) == Strip(x) + (if c == '\n' || c == '\'' then [] else [c])
  {
    assert (x + [c])[..|x|] == x;
  }

  /**
   * What `tokenize` returns from `p`: the scan stops right after the
   * first structure character outside quotes, or at `end`; the token is
   * the text read without newlines and quotes, and a stopping structure
   * character is the token only when that text is empty.
   */
  ghost predicate TokenSpec(s: string, p: nat, end: nat, r: (string, nat))
    requires p < end <= |s|
  {
    && p < r.1 <= end
    && (forall j :: p <= j < r.1 - 1 ==> !EndsToken(s, p, j))
    && (r.1 < end ==> EndsToken(s, p, r.1 - 1))
    && (EndsToken(s, p, r.1 - 1) ==>
          r.0 == if Strip(s[p..r.1 - 1]) == [] then [s[r.1 - 1]] else Strip(s[p..r.1 - 1]))
    && (!EndsToken(s, p, r.1 - 1) ==> r.0 == Strip(s[p..r.1]))
  }

  /** The state of the scan on reaching `k`. */
  ghost predicate ScanState(s: string, p: nat, k: nat, inQuote: bool, token: string)
    requires p <= k <= |s|
  {
    inQuote == QuotedAt(s, p, k) && token == Strip(s[p..k]) && forall j :: p <= j < k ==> !EndsToken(s, p, j)
  }

  lemma ScanAdvance(s: string, p: nat, k: nat, inQuote: bool, token: string)
    requires p <= k < |s| && ScanState(s, p, k, inQuote, token)
    requires !EndsToken(s, p, k)
    ensures var c := s[k];
            var q := if c == '\'' then !inQuote else inQuote;
            ScanState(s, p, k + 1, q, if c == '\n' || c == '\'' then token else token + [c])
  {
    assert s[p..k + 1] == s[p..k] + [s[k]];
    StripSnoc(s[p..k], s[k]);
  }

  lemma ScanStop(s: string, p: nat, k: nat, end: nat, inQuote: bool, token: string)
    requires p <= k < end <= |s| && ScanState(s, p, k, inQuote, token)
    requires EndsToken(s, p, k)
    ensures TokenSpec(s, p, end, (if |token| == 0 then [s[k]] else token, k + 1))
  {
  }

  lemma ScanLast(s: string, p: nat, k: nat, end: nat, inQuote: bool, token: string)
    requires p <= k && k + 1 == end <= |s| && ScanState(s, p, k, inQuote, token)
    requires !EndsToken(s, p, k)
    ensures TokenSpec(s, p, end, (if s[k] == '\n' || s[k] == '\'' then token else token + [s[k]], end))
  {
    ScanAdvance(s, p, k, inQuote, token);
  }

  lemma {:induction false} ScanEnds(s: string, p: nat, k: nat, end: nat, inQuote: bool, token: string)
    requires p <= k < end <= |s| && ScanState(s, p, k, inQuote, token)
    ensures TokenSpec(s, p, end, Scan(s, k, end, inQuote, token))
    decreases end - k
  {
    var c := s[k];
    if EndsToken(s, p, k) {
      ScanStop(s, p, k, end, inQuote, token);
    } else if k + 1 == end {
      ScanLast(s, p, k, end, inQuote, token);
    } else {
      ScanAdvance(s, p, k, inQuote, token);
      var q := if c == '\'' then !inQuote else inQuote;
      var token' := if c == '\n' || c == '\'' then token else token + [c];
      assert !(IsStructureCharacter(c) && !inQuote);
      assert Scan(s, k, end, inQuote, token) == Scan(s, k + 1, end, q, token');
      ScanEnds(s, p, k + 1, end, q, token');
    }
  }

  /**
   * The token `tokenize` cuts from position `p` and where it stops: it
   * reads up to and including the first structure character outside
   * quotes, dropping newlines and quote characters. That structure
   * character is the token only when nothing came before it; otherwise
   * it is consumed and lost.
   */
  function NextToken(s: string, p: nat, end: nat): (r: (string, nat))
    requires p < end <= |s|
    ensures p < r.1 <= end
  {
    ScanEnds(s, p, p, end, false, "");
    Scan(s, p, end, false, "")
  }

  /** The token and the stopping point meet the description above. */
  lemma NextTokenMeetsSpec(s: string, p: nat, end: nat)
    requires p < end <= |s|
    ensures TokenSpec(s, p, end, NextToken(s, p, end))
  {
    ScanEnds(s, p, p, end, false, "");
  }

  /** A do-while loop over the characters from `start`, as `tokenize` runs it. */
  method Tokenize(s: string, start: nat, end: nat) returns (token: string, next: nat)
    requires start < end <= |s|
    ensures (token, next) == NextToken(s, start, end)
  {
    var inquote := false;
    token := "";
    next := start;
    while true
      invariant start <= next < end
      invariant Scan(s, start, end, false, "") == Scan(s, next, end, inquote, token)
      decreases end - next
    {
      var c := s[next];
      next := next + 1;
      if c == '\n' {
        if next == end {
          return;
        }
        continue;
      }
      var isquote := c == '\'';
      if inquote && isquote {
        inquote := false;
        if next == end {
          return;
        }
        continue;
      } else if !inquote && isquote {
        inquote := true;
        if next == end {
          return;
        }
        continue;
      }
      if IsStructureCharacter(c) && !inquote {
        if |token| == 0 {
          token := [c];
        }
        return;
      }
      token := token + [c];
      if next == end {
        return;
      }
    }
  }

  /** A label followed by a comma: the comma is consumed and dropped. */
  lemma TokenizeExample()
    ensures NextToken("(A:1,B:2)C:0;", 0, 13) == ("(", 1)
    ensures NextToken("(A:1,B:2)C:0;", 1, 13) == ("A:1", 5)
  {
    var s := "(A:1,B:2)C:0;";
    assert "A:" + ['1'] == "A:1" && "A" + [':'] == "A:" && "" + ['A'] == "A";
    assert Scan(s, 4, 13, false, "A:1") == ("A:1", 5);
    assert Scan(s, 3, 13, false, "A:") == ("A:1", 5);
    assert Scan(s, 2, 13, false, "A") == ("A:1", 5);
    assert Scan(s, 1, 13, false, "") == ("A:1", 5);
  }

  /** The position of the last `:` in `token`, or -1. */
  function LastColon(token: string): (r: int)
    ensures -1 <= r < |token|
    ensures r >= 0 ==> token[r] == ':'
    ensures forall k :: r < k < |token| ==> token[k] != ':'
  {
    if |token| == 0 then -1
    else if token[|token| - 1] == ':' then |token| - 1
    else LastColon(token[..|token| - 1])
  }

  /**
   * A label split at its last `:` into name and length (set_node_metadata);
   * `parse` stands for the library's text-to-number conversion. A label
   * with no `:` is all name, with length 0.
   */
  function NodeMetadata(token: string, parse: string -> real): (r: (string, real))
    ensures ':' !in token ==> r == (token, 0.0)
    ensures ':' in token ==>
              && |r.0| < |token|
              && token == r.0 + [':'] + token[|r.0| + 1..]
              && ':' !in token[|r.0| + 1..]
              && r.1 == parse(token[|r.0| + 1..])
  {
    var colon := LastColon(token);
    if colon == 0 then
      ("", parse(token[1..]))
    else if colon > 0 then
      (token[..colon], parse(token[colon + 1..]))
    else
      (token, 0.0)
  }

  lemma LastColonAt(token: string, c: nat)
    requires c < |token| && token[c] == ':'
    requires forall k :: c < k < |token| ==> token[k] != ':'
    ensures LastColon(token) == c
  {
  }

  /** Writing `name:length` and splitting it again gives back the name and the parsed length. */
  lemma NodeMetadataRoundTrip(name: string, lengthText: string, parse: string -> real)
    requires ':' !in lengthText
    ensures NodeMetadata(name + [':'] + lengthText, parse) == (name, parse(lengthText))
  {
    var token := name + [':'] + lengthText;
    var c := |name|;
    assert token[c] == ':';
    assert forall k :: c < k < |token| ==> token[k] == lengthText[k - c - 1];
    LastColonAt(token, c);
    assert token[..c] == name;
    assert token[c + 1..] == lengthText;
  }

  /** The C-locale white space that the right trim removes. */
  predicate IsSpace(c: char) {
    c == ' ' || c == '\t' || c == '\n' || c == '\U{B}' || c == '\U{C}' || c == '\r'
  }

  /** The length of the C string held by `s`: up to its first NUL. */
  function CLength(s: string): (n: nat)
    ensures n <= |s| && (n < |s| ==> s[n] == '\0')
    ensures forall k :: 0 <= k < n ==> s[k] != '\0'
  {
    if |s| == 0 then 0
    else if s[0] == '\0' then 0
    else 1 + CLength(s[1..])
  }

  /** The end of the text once trailing white space is dropped. */
  function TrimmedEnd(s: string, end: nat): (e: nat)
    requires end <= |s|
    ensures e <= end && (e > 0 ==> !IsSpace(s[e - 1]))
    ensures forall k :: e <= k < end ==> IsSpace(s[k])
  {
    if end == 0 || !IsSpace(s[end - 1]) then end else TrimmedEnd(s, end - 1)
  }

  /** The cursor of `newick_to_metadata` and the node data written so far. */
  datatype MetaState = MetaState(structureIdx: nat, lag: nat, lastStructure: char, names: seq<string>, lengths: seq<real>)

  /**
   * The effect of one token of `newick_to_metadata`: a structure token
   * moves the cursor one token on (and a `)` or `,` after a `)` adds to
   * the lag); a label first catches up the lag, then is written onto the
   * node whose token the cursor is on, and moves the cursor past that
   * node's open token (two tokens for a leaf). None when a label's
   * cursor has run past the tokens, where the source reads out of bounds.
   */
  function MetaStep(t: BPTree, st: MetaState, token: string, parse: string -> real): (r: Option<MetaState>)
    requires Valid(t) && |st.names| == |t.structure| && |st.lengths| == |t.structure|
    ensures r.Some? ==> |r.value.names| == |t.structure| && |r.value.lengths| == |t.structure|
  {
    var last := if |token| == 0 then '\0' else token[0];
    if |token| == 1 && IsStructureCharacter(token[0]) then
      if token[0] == '(' then Some(st.(structureIdx := st.structureIdx + 1, lastStructure := last))
      else if token[0] == ')' || token[0] == ',' then
        var lag := if st.lastStructure == ')' then st.lag + 1 else st.lag;
        Some(st.(structureIdx := st.structureIdx + 1, lag := lag, lastStructure := last))
      else Some(st.(lastStructure := last))
    else
      var idx := st.structureIdx + st.lag;
      if idx >= |t.structure| then None
      else
        var o := Open(t, idx);
        var md := NodeMetadata(token, parse);
        var step := if IsLeaf(t, o) then 2 else 1;
        Some(MetaState(idx + step, 0, last, st.names[o := md.0], st.lengths[o := md.1]))
  }

  /** The walk of `newick_to_metadata` over the tokens from text position `start`. */
  function MetaRun(t: BPTree, s: string, start: nat, end: nat, st: MetaState, parse: string -> real): (r: Option<MetaState>)
    requires Valid(t) && start <= end <= |s|
    requires |st.names| == |t.structure| && |st.lengths| == |t.structure|
    ensures r.Some? ==> |r.value.names| == |t.structure| && |r.value.lengths| == |t.structure|
    decreases end - start
  {
    if start == end then Some(st)
    else
      var (token, next) := NextToken(s, start, end);
      match MetaStep(t, st, token, parse)
      case None => None
      case Some(st') => MetaRun(t, s, next, end, st', parse)
  }

  /** One token of the walk: the run from `from` is the step on that token followed by the run from `next`. */
  lemma MetaRunStep(t: BPTree, s: string, from: nat, end: nat, before: MetaState, token: string, next: nat,
                    after: Option<MetaState>, parse: string -> real)
    requires Valid(t) && from < end <= |s|
    requires |before.names| == |t.structure| && |before.lengths| == |t.structure|
    requires (token, next) == NextToken(s, from, end)
    requires MetaStep(t, before, token, parse) == after
    ensures next <= end
    ensures after.None? ==> MetaRun(t, s, from, end, before, parse) == None
    ensures after.Some? ==> MetaRun(t, s, from, end, before, parse) == MetaRun(t, s, next, end, after.value, parse)
  {
  }

  /** A label is written onto an open token, so close tokens keep their entries. */
  lemma MetaStepKeepsCloses(t: BPTree, st: MetaState, token: string, parse: string -> real)
    requires Valid(t) && |st.names| == |t.structure| && |st.lengths| == |t.structure|
    ensures var r := MetaStep(t, st, token, parse);
            r.Some? ==> forall j :: 0 <= j < |t.structure| && !t.structure[j] ==>
                          r.value.names[j] == st.names[j] && r.value.lengths[j] == st.lengths[j]
  {
  }

  /** Labels land only on open tokens: the entries at close tokens keep their values. */
  lemma {:induction false} MetaRunKeepsCloses(t: BPTree, s: string, start: nat, end: nat, st: MetaState, parse: string -> real)
    requires Valid(t) && start <= end <= |s|
    requires |st.names| == |t.structure| && |st.lengths| == |t.structure|
    ensures var r := MetaRun(t, s, start, end, st, parse);
            r.Some? ==> forall j :: 0 <= j < |t.structure| && !t.structure[j] ==>
                          r.value.names[j] == st.names[j] && r.value.lengths[j] == st.lengths[j]
    decreases end - start
  {
    if start < end {
      var (token, next) := NextToken(s, start, end);
      var r := MetaStep(t, st, token, parse);
      if r.Some? {
        MetaStepKeepsCloses(t, st, token, parse);
        MetaRunKeepsCloses(t, s, next, end, r.value, parse);
      }
    }
  }

  /** The state `newick_to_metadata` starts from on a tree of `n` tokens: empty names, zero lengths. */
  function MetaStart(n: nat): (st: MetaState)
    ensures |st.names| == n && |st.lengths| == n
  {
    MetaState(0, 0, '\0', seq(n, _ => ""), seq(n, _ => 0.0))
  }

  /** The tokens of `(A:1,B:2)C:0;`: `(`, then the three labels, each eating the character after it. */
  lemma TokensExample()
    ensures NextToken("(A:1,B:2)C:0;", 0, 13) == ("(", 1)
    ensures NextToken("(A:1,B:2)C:0;", 1, 13) == ("A:1", 5)
    ensures NextToken("(A:1,B:2)C:0;", 5, 13) == ("B:2", 9)
    ensures NextToken("(A:1,B:2)C:0;", 9, 13) == ("C:0", 13)
  {
    var s := "(A:1,B:2)C:0;";
    TokenizeExample();
    assert "B:" + ['2'] == "B:2" && "B" + [':'] == "B:" && "" + ['B'] == "B";
    assert Scan(s, 8, 13, false, "B:2") == ("B:2", 9);
    assert Scan(s, 7, 13, false, "B:") == ("B:2", 9);
    assert Scan(s, 6, 13, false, "B") == ("B:2", 9);
    assert Scan(s, 5, 13, false, "") == ("B:2", 9);
    assert "C:" + ['0'] == "C:0" && "C" + [':'] == "C:" && "" + ['C'] == "C";
    assert Scan(s, 12, 13, false, "C:0") == ("C:0", 13);
    assert Scan(s, 11, 13, false, "C:") == ("C:0", 13);
    assert Scan(s, 10, 13, false, "C") == ("C:0", 13);
    assert Scan(s, 9, 13, false, "") == ("C:0", 13);
  }

  /** The tree of `(A:1,B:2)C:0;`: a root at token 0 over the tips at tokens 1 and 3. */
  lemma TreeExample(t: BPTree)
    requires Valid(t) && t.structure == [true, true, false, true, false, false]
    ensures IsLeaf(t, 1) && IsLeaf(t, 3) && !IsLeaf(t, 0) && Open(t, 5) == 0
  {
    var bs := t.structure;
    assert Depth(bs, 1) == 1 && Depth(bs, 2) == 2 && Depth(bs, 3) == 1;
    assert Depth(bs, 4) == 2 && Depth(bs, 5) == 1 && Depth(bs, 6) == 0;
  }

  /** A label token written at the node `o` the cursor is on. */
  lemma LabelStep(t: BPTree, st: MetaState, token: string, parse: string -> real, o: nat, name: string, len: real)
    requires Valid(t) && |st.names| == |t.structure| && |st.lengths| == |t.structure|
    requires |token| > 1 && st.structureIdx + st.lag < |t.structure| && Open(t, st.structureIdx + st.lag) == o
    requires NodeMetadata(token, parse) == (name, len)
    ensures MetaStep(t, st, token, parse)
            == Some(MetaState(st.structureIdx + st.lag + (if IsLeaf(t, o) then 2 else 1), 0, token[0],
                              st.names[o := name], st.lengths[o := len]))
  {
  }

  /** The label `A:1` lands on the first tip of the example tree. */
  lemma LabelAExample(t: BPTree, parse: string -> real)
    requires Valid(t) && t.structure == [true, true, false, true, false, false]
    ensures MetaStep(t, MetaState(1, 0, '(', ["", "", "", "", "", ""], [0.0, 0.0, 0.0, 0.0, 0.0, 0.0]), "A:1", parse)
            == Some(MetaState(3, 0, 'A', ["", "A", "", "", "", ""], [0.0, parse("1"), 0.0, 0.0, 0.0, 0.0]))
  {
    TreeExample(t);
    assert "A" + [':'] + "1" == "A:1";
    NodeMetadataRoundTrip("A", "1", parse);
    assert ["", "", "", "", "", ""][1 := "A"] == ["", "A", "", "", "", ""];
    assert [0.0, 0.0, 0.0, 0.0, 0.0, 0.0][1 := parse("1")] == [0.0, parse("1"), 0.0, 0.0, 0.0, 0.0];
    LabelStep(t, MetaState(1, 0, '(', ["", "", "", "", "", ""], [0.0, 0.0, 0.0, 0.0, 0.0, 0.0]), "A:1", parse, 1, "A", parse("1"));
  }

  /** The label `B:2` lands on the second tip of the example tree. */
  lemma LabelBExample(t: BPTree, parse: string -> real)
    requires Valid(t) && t.structure == [true, true, false, true, false, false]
    ensures MetaStep(t, MetaState(3, 0, 'A', ["", "A", "", "", "", ""], [0.0, parse("1"), 0.0, 0.0, 0.0, 0.0]), "B:2", parse)
            == Some(MetaState(5, 0, 'B', ["", "A", "", "B", "", ""], [0.0, parse("1"), 0.0, parse("2"), 0.0, 0.0]))
  {
    TreeExample(t);
    assert "B" + [':'] + "2" == "B:2";
    NodeMetadataRoundTrip("B", "2", parse);
    assert ["", "A", "", "", "", ""][3 := "B"] == ["", "A", "", "B", "", ""];
    assert [0.0, parse("1"), 0.0, 0.0, 0.0, 0.0][3 := parse("2")] == [0.0, parse("1"), 0.0, parse("2"), 0.0, 0.0];
    LabelStep(t, MetaState(3, 0, 'A', ["", "A", "", "", "", ""], [0.0, parse("1"), 0.0, 0.0, 0.0, 0.0]), "B:2", parse, 3, "B", parse("2"));
  }

  /** The label `C:0` after the closing parenthesis lands on the root of the example tree. */
  lemma LabelCExample(t: BPTree, parse: string -> real)
    requires Valid(t) && t.structure == [true, true, false, true, false, false]
    ensures MetaStep(t, MetaState(5, 0, 'B', ["", "A", "", "B", "", ""], [0.0, parse("1"), 0.0, parse("2"), 0.0, 0.0]), "C:0", parse)
            == Some(MetaState(6, 0, 'C', ["C", "A", "", "B", "", ""], [parse("0"), parse("1"), 0.0, parse("2"), 0.0, 0.0]))
  {
    TreeExample(t);
    assert "C" + [':'] + "0" == "C:0";
    NodeMetadataRoundTrip("C", "0", parse);
    assert ["", "A", "", "B", "", ""][0 := "C"] == ["C", "A", "", "B", "", ""];
    assert [0.0, parse("1"), 0.0, parse("2"), 0.0, 0.0][0 := parse("0")] == [parse("0"), parse("1"), 0.0, parse("2"), 0.0, 0.0];
    LabelStep(t, MetaState(5, 0, 'B', ["", "A", "", "B", "", ""], [0.0, parse("1"), 0.0, parse("2"), 0.0, 0.0]), "C:0", parse, 0, "C", parse("0"));
  }

  /**
   * The labels of `(A:1,B:2)C:0;` land on their nodes: `A:1` on the
   * first tip (token 1), `B:2` on the second (token 3) and `C:0`, which
   * follows the closing parenthesis, on the root (token 0).
   */
  lemma MetaRunExample(t: BPTree, parse: string -> real)
    requires Valid(t) && t.structure == [true, true, false, true, false, false]
    ensures MetaRun(t, "(A:1,B:2)C:0;", 0, 13, MetaStart(6), parse)
            == Some(MetaState(6, 0, 'C', ["C", "A", "", "B", "", ""],
                              [parse("0"), parse("1"), 0.0, parse("2"), 0.0, 0.0]))
  {
    var s := "(A:1,B:2)C:0;";
    TokensExample();
    LabelAExample(t, parse);
    LabelBExample(t, parse);
    LabelCExample(t, parse);
    var st0 := MetaStart(6);
    assert st0.names == ["", "", "", "", "", ""] && st0.lengths == [0.0, 0.0, 0.0, 0.0, 0.0, 0.0];
    var st1 := MetaState(1, 0, '(', st0.names, st0.lengths);
    var st2 := MetaState(3, 0, 'A', ["", "A", "", "", "", ""], [0.0, parse("1"), 0.0, 0.0, 0.0, 0.0]);
    var st3 := MetaState(5, 0, 'B', ["", "A", "", "B", "", ""], [0.0, parse("1"), 0.0, parse("2"), 0.0, 0.0]);
    var st4 := MetaState(6, 0, 'C', ["C", "A", "", "B", "", ""], [parse("0"), parse("1"), 0.0, parse("2"), 0.0, 0.0]);
    assert MetaStep(t, st0, "(", parse) == Some(st1);
    assert MetaRun(t, s, 9, 13, st3, parse) == Some(st4);
    assert MetaRun(t, s, 5, 13, st2, parse) == Some(st4);
    assert MetaRun(t, s, 1, 13, st1, parse) == Some(st4);
  }

  /**
   * Attaches names and lengths to the nodes of `t` from the labels of
   * the text it was built from. Starts from empty names and zero
   * lengths, as the constructor sizes them.
   */
  method NewickToMetadata(t: BPTree, newick: string, parse: string -> real) returns (r: Option<MetaState>)
    requires Valid(t)
    ensures r == MetaRun(t, newick, 0, TrimmedEnd(newick, CLength(newick)), MetaStart(|t.structure|), parse)
  {
    var start: nat := 0;
    var end: nat := CLength(newick);
    while end != start && IsSpace(newick[end - 1])
      invariant end <= |newick|
      invariant TrimmedEnd(newick, CLength(newick)) == TrimmedEnd(newick, end)
    {
      end := end - 1;
    }
    var st := MetaStart(|t.structure|);
    ghost var init := st;
    while start != end
      invariant start <= end <= |newick| && |st.names| == |t.structure| && |st.lengths| == |t.structure|
      invariant MetaRun(t, newick, 0, end, init, parse) == MetaRun(t, newick, start, end, st, parse)
      decreases end - start
    {
      ghost var from := start;
      var token;
      token, start := Tokenize(newick, start, end);
      var after := MetaTokenStep(t, st, token, parse);
      MetaRunStep(t, newick, from, end, st, token, start, after, parse);
      if after.None? {
        return None;
      }
      st := after.value;
    }
    return Some(st);
  }

  /** The body of the token loop of `newick_to_metadata`: one token's effect on the cursor and the node data. */
  method MetaTokenStep(t: BPTree, st: MetaState, token: string, parse: string -> real) returns (r: Option<MetaState>)
    requires Valid(t) && |st.names| == |t.structure| && |st.lengths| == |t.structure|
    ensures r == MetaStep(t, st, token, parse)
  {
    var structureIdx := st.structureIdx;
    var lag := st.lag;
    var names := st.names;
    var lengths := st.lengths;
    if |token| == 1 && IsStructureCharacter(token[0]) {
      structureIdx := structureIdx + 1;
      if token[0] == '(' {
      } else if token[0] == ')' || token[0] == ',' {
        if st.lastStructure == ')' {
          lag := lag + 1;
        }
      } else {
        structureIdx := structureIdx - 1;
      }
    } else {
      structureIdx := structureIdx + lag;
      lag := 0;
      if structureIdx >= |t.structure| {
        return None;
      }
      var openIdx := Open(t, structureIdx);
      var md := NodeMetadata(token, parse);
      names := names[openIdx := md.0];
      lengths := lengths[openIdx := md.1];
      if IsLeaf(t, openIdx) {
        structureIdx := structureIdx + 2;
      } else {
        structureIdx := structureIdx + 1;
      }
    }
    var lastStructure := if |token| == 0 then '\0' else token[0];
    return Some(MetaState(structureIdx, lag, lastStructure, names, lengths));
  }

  /** The pairing table of a valid tree is fixed by its tokens, so the token of a close's node is too. */
  lemma OpenDetermined(t1: BPTree, t2: BPTree, i: nat)
    requires Valid(t1) && Valid(t2) && t1.structure == t2.structure && i < |t1.structure|
    ensures Open(t1, i) == Open(t2, i)
  {
  }

  /** The label walk reads only the tokens of the tree, not its side tables. */
  lemma {:induction false} MetaRunDetermined(t1: BPTree, t2: BPTree, s: string, start: nat, end: nat, st: MetaState,
                                             parse: string -> real)
    requires Valid(t1) && Valid(t2) && t1.structure == t2.structure && start <= end <= |s|
    requires |st.names| == |t1.structure| && |st.lengths| == |t1.structure|
    ensures MetaRun(t1, s, start, end, st, parse) == MetaRun(t2, s, start, end, st, parse)
    decreases end - start
  {
    if start < end {
      var (token, next) := NextToken(s, start, end);
      var idx := st.structureIdx + st.lag;
      if idx < |t1.structure| {
        OpenDetermined(t1, t2, idx);
      }
      var r := MetaStep(t1, st, token, parse);
      assert r == MetaStep(t2, st, token, parse);
      if r.Some? {
        MetaRunDetermined(t1, t2, s, next, end, r.value, parse);
      }
    }
  }

  /**
   * `t` is the tree the string constructor builds from `newick`: the
   * tokens of `newick_to_bp` with the names and lengths the label walk
   * writes over the trimmed C string.
   */
  ghost predicate IsNewickTree(t: BPTree, newick: string, parse: string -> real) {
    && Valid(t)
    && t.structure == BpRun(newick, 0, BpStart).structure
    && var md := MetaRun(t, newick, 0, TrimmedEnd(newick, CLength(newick)), MetaStart(|t.structure|), parse);
       md.Some? && t.names == md.value.names && t.lengths == md.value.lengths
  }

  /**
   * The string constructor (`_init`): the token pass, the pairing and
   * index passes, then the label pass over names and lengths sized to
   * the tokens. The index pass reads no names or lengths, so it runs
   * here before the label pass. None where the source's behaviour is
   * undefined: unbalanced tokens, or a label with no node left for it;
   * then no tree at all fits the text.
   */
  method FromNewick(newick: string, parse: string -> real) returns (r: Option<BPTree>)
    ensures r.Some? ==> IsNewickTree(r.value, newick, parse)
    ensures r.None? ==> forall t :: !IsNewickTree(t, newick, parse)
  {
    var structure := NewickToBp(newick);
    if !Balanced(structure) {
      return None;
    }
    var blank := MetaStart(|structure|);
    var t := Build(structure, blank.lengths, blank.names);
    var md := NewickToMetadata(t, newick, parse);
    if md.None? {
      forall t' | IsNewickTree(t', newick, parse) ensures false {
        MetaRunDetermined(t, t', newick, 0, TrimmedEnd(newick, CLength(newick)), blank, parse);
      }
      return None;
    }
    MetaRunDetermined(t, t.(names := md.value.names, lengths := md.value.lengths), newick, 0,
                      TrimmedEnd(newick, CLength(newick)), blank, parse);
    return Some(t.(names := md.value.names, lengths := md.value.lengths));
  }

  /** A string with no NUL is a C string of its full length. */
  lemma {:induction false} CLengthNoNul(s: string)
    requires forall k :: 0 <= k < |s| ==> s[k] != '\0'
    ensures CLength(s) == |s|
  {
    if |s| > 0 {
      CLengthNoNul(s[1..]);
    }
  }

  /** The text `(A:1,B:2)C:0;` has no NUL and no trailing white space. */
  lemma ExampleEnd()
    ensures TrimmedEnd("(A:1,B:2)C:0;", CLength("(A:1,B:2)C:0;")) == 13
  {
    CLengthNoNul("(A:1,B:2)C:0;");
  }

  /** The excess after each prefix of the example tokens. */
  lemma ExampleDepths()
    ensures var s := [true, true, false, true, false, false];
            && Depth(s, 0) == 0 && Depth(s, 1) == 1 && Depth(s, 2) == 2 && Depth(s, 3) == 1
            && Depth(s, 4) == 2 && Depth(s, 5) == 1 && Depth(s, 6) == 0
  {
  }

  /** The three nodes of the example tree and their close tokens. */
  lemma ExampleMatches()
    ensures var s := [true, true, false, true, false, false];
            Matches(s, 0, 5) && Matches(s, 1, 2) && Matches(s, 3, 4)
  {
    var s := [true, true, false, true, false, false];
    ExampleDepths();
    forall m | 0 < m <= 5 ensures Depth(s, m) > 0 {
      assert m == 1 || m == 2 || m == 3 || m == 4 || m == 5;
    }
  }

  /** The pairing table of the example tree. */
  lemma ExampleOpenClose()
    ensures IsOpenClose([true, true, false, true, false, false], [5, 2, 1, 4, 3, 0])
  {
    var s := [true, true, false, true, false, false];
    var oc := [5, 2, 1, 4, 3, 0];
    ExampleMatches();
    forall i | 0 <= i < 6 ensures PairedAt(s, oc, i) {
      assert i == 0 || i == 1 || i == 2 || i == 3 || i == 4 || i == 5;
    }
  }

  /** The excess and select tables of the example tree. */
  lemma ExampleIndex()
    ensures IsExcess([true, true, false, true, false, false], [1, 2, 1, 2, 1, 0])
    ensures IsSelect([true, true, false, true, false, false], [0, 1, 3], true)
    ensures IsSelect([true, true, false, true, false, false], [2, 4, 5], false)
  {
    var s := [true, true, false, true, false, false];
    ExampleDepths();
    assert Rank1(s, 1) == 1 && Rank1(s, 2) == 2 && Rank1(s, 3) == 2;
    assert Rank1(s, 4) == 3 && Rank1(s, 5) == 3 && Rank1(s, 6) == 3;
  }

  /**
   * The string constructor on `(A:1,B:2)C:0;` succeeds, and its tree has
   * three nodes in six tokens: tips `A` and `B` with lengths 1 and 2
   * under a root `C` with length 0 that is not a tip.
   */
  lemma NewickTreeExample(t: BPTree, parse: string -> real)
    requires IsNewickTree(t, "(A:1,B:2)C:0;", parse)
    ensures |t.structure| == 6 && Rank1(t.structure, 6) == 3
    ensures IsLeaf(t, 1) && IsLeaf(t, 3) && !IsLeaf(t, 0) && Close(t, 0) == 5
    ensures t.names == ["C", "A", "", "B", "", ""]
    ensures t.lengths == [parse("0"), parse("1"), 0.0, parse("2"), 0.0, 0.0]
  {
    NewickToBpExample();
    ExampleEnd();
    assert t.structure == [true, true, false, true, false, false];
    TreeExample(t);
    MetaRunExample(t, parse);
  }

  /** The tree of `(A:1,B:2)C:0;` with all its tables written out. */
  function ExampleTree(parse: string -> real): BPTree {
    BPTree([true, true, false, true, false, false], [5, 2, 1, 4, 3, 0], [1, 2, 1, 2, 1, 0], [2, 4, 5], [0, 1, 3],
           [parse("0"), parse("1"), 0.0, parse("2"), 0.0, 0.0], ["C", "A", "", "B", "", ""])
  }

  lemma ExampleTreeValid(parse: string -> real)
    ensures Valid(ExampleTree(parse))
  {
    ExampleOpenClose();
    ExampleIndex();
    ExampleDepths();
  }

  /** The written-out tree fits the example text, so `FromNewick` does not report failure on it. */
  lemma ExampleTreeFits(parse: string -> real)
    ensures IsNewickTree(ExampleTree(parse), "(A:1,B:2)C:0;", parse)
  {
    var t := ExampleTree(parse);
    ExampleTreeValid(parse);
    NewickToBpExample();
    ExampleEnd();
    MetaRunExample(t, parse);
  }
}
