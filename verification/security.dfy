/** The input guardrail of the research-workflow coordinator and the masking of
    stored credentials before text is logged. */
module Security {
  import opened Text

  /** The four login secrets the assistant holds, in declaration order. */
  datatype Credentials = Credentials(
    ucalgaryUsername: string,
    ucalgaryPassword: string,
    googleUsername: string,
    googlePassword: string)
  {
    /** The field values as `model_dump()` lists them: declaration order. */
    function Values(): (vs: seq<string>)
      ensures |vs| == 4
    {
      [ucalgaryUsername, ucalgaryPassword, googleUsername, googlePassword]
    }
  }

  datatype SecurityCheckOutput = SecurityCheckOutput(isAcceptable: bool, reason: string)

  datatype GuardrailOutput = GuardrailOutput(outputInfo: SecurityCheckOutput, tripwireTriggered: bool)

  /** What the guardrail receives: a plain string, or a list of message
      dictionaries, which it inspects through its `str()` rendering. */
  datatype GuardInput = TextInput(text: string) | MessageList(rendering: string)

  function InputText(input: GuardInput): string
  {
    match input
    case TextInput(t) => t
    case MessageList(r) => r
  }

  const SensitiveTerms: seq<string> := [
    "hack", "exploit", "steal", "bypass", "credential", "password",
    "credit card", "bank account", "social security", "illegal"
  ]

  const OffTopicTerms: seq<string> := ["game", "movie", "entertainment", "dating"]

  const SensitiveReason := "Input contains sensitive terms that may indicate inappropriate usage."
  const CredentialModificationReason := "Input appears to request credential modification, which is not allowed."
  const OffTopicReason := "Input appears to be off-topic for a research assistant."
  const DefaultReason := "Input appears to be an appropriate research request."

  /** The lower-cased text mentions one of the sensitive terms. */
  predicate MentionsSensitive(text: string)
  {
    ContainsSome(text, SensitiveTerms)
  }

  /** The lower-cased text asks to change a password or update a credential. */
  predicate AsksCredentialChange(text: string)
  {
    Contains(text, "change password") || Contains(text, "update credential")
  }

  /** The lower-cased text mentions one of the off-topic terms. */
  predicate MentionsOffTopic(text: string)
  {
    ContainsSome(text, OffTopicTerms)
  }

  /** The guardrail: every check runs on the lower-cased text; the input is
      acceptable when no check fires, the tripwire is the opposite of
      acceptability, and the reason names the first check that fires in the
      order sensitive, credential modification, off-topic. */
  function SecurityGuardrail(input: GuardInput): (r: GuardrailOutput)
    ensures var text := Lower(InputText(input));
      r.outputInfo.isAcceptable <==>
        !MentionsSensitive(text) && !AsksCredentialChange(text) && !MentionsOffTopic(text)
    ensures r.tripwireTriggered == !r.outputInfo.isAcceptable
    ensures var text := Lower(InputText(input));
      r.outputInfo.reason ==
        if MentionsSensitive(text) then SensitiveReason
        else if AsksCredentialChange(text) then CredentialModificationReason
        else if MentionsOffTopic(text) then OffTopicReason
        else DefaultReason
  {
    var text := Lower(InputText(input));
    var containsSensitive := ContainsAny(text, SensitiveTerms);
    var credentialModification := Contains(text, "change password") || Contains(text, "update credential");
    var offTopic := ContainsAny(text, OffTopicTerms);
    var isAcceptable := !(containsSensitive || credentialModification || offTopic);
    var reason :=
      if containsSensitive then SensitiveReason
      else if credentialModification then CredentialModificationReason
      else if offTopic then OffTopicReason
      else DefaultReason;
    ContainsAnyIff(text, SensitiveTerms);
    ContainsAnyIff(text, OffTopicTerms);
    assert containsSensitive == MentionsSensitive(text);
    assert credentialModification == AsksCredentialChange(text);
    assert offTopic == MentionsOffTopic(text);
    GuardrailOutput(SecurityCheckOutput(isAcceptable, reason), !isAcceptable)
  }

  /** Every request to change a password or update a credential already
      mentions a sensitive term. */
  lemma CredentialChangeIsSensitive(text: string)
    requires AsksCredentialChange(text)
    ensures MentionsSensitive(text)
  {
    if Contains(text, "change password") {
      assert OccursAt("change password", "password", 7);
      ContainsIff("change password", "password");
      ContainsTransitive(text, "change password", "password");
      assert SensitiveTerms[5] == "password";
    } else {
      assert OccursAt("update credential", "credential", 7);
      ContainsIff("update credential", "credential");
      ContainsTransitive(text, "update credential", "credential");
      assert SensitiveTerms[4] == "credential";
    }
  }

  /** The credential-modification reason is never given: the sensitive check,
      which has priority, fires on every input that would earn it. */
  lemma CredentialReasonUnreachable(input: GuardInput)
    ensures SecurityGuardrail(input).outputInfo.reason != CredentialModificationReason
  {
    var text := Lower(InputText(input));
    if AsksCredentialChange(text) {
      CredentialChangeIsSensitive(text);
    }
  }

  /** Hence acceptability is decided by the sensitive and off-topic terms alone. */
  lemma AcceptabilityWithoutCredentialCheck(input: GuardInput)
    ensures var text := Lower(InputText(input));
      SecurityGuardrail(input).outputInfo.isAcceptable <==>
        !MentionsSensitive(text) && !MentionsOffTopic(text)
  {
    var text := Lower(InputText(input));
    if AsksCredentialChange(text) {
      CredentialChangeIsSensitive(text);
    }
  }

  /** The default reason is given to exactly the accepted inputs. */
  lemma DefaultReasonIffAcceptable(input: GuardInput)
    ensures SecurityGuardrail(input).outputInfo.reason == DefaultReason
        <==> SecurityGuardrail(input).outputInfo.isAcceptable
  {
  }

  /** Matching ignores case, and a message list is judged by its rendering
      exactly as that string would be. */
  lemma GuardrailIgnoresCase(s: string)
    ensures SecurityGuardrail(TextInput(s)) == SecurityGuardrail(TextInput(Lower(s)))
    ensures SecurityGuardrail(MessageList(s)) == SecurityGuardrail(TextInput(s))
  {
    LowerIdempotent(s);
  }

  // ---------------------------------------------------------------------------
  // mask_credentials
  // ---------------------------------------------------------------------------

  /** The mask of a value longer than 4: its first two and last two characters
      with `*` in between. */
  function MaskValue(v: string): (m: string)
    requires |v| > 4
    ensures |m| == |v|
    ensures m[..2] == v[..2] && m[|v| - 2..] == v[|v| - 2..]
    ensures forall i :: 2 <= i < |v| - 2 ==> m[i] == '*'
  {
    v[..2] + Stars(|v| - 4) + v[|v| - 2..]
  }

  /** One round of the masking loop: a value longer than 4 characters has
      every occurrence replaced by its mask; a shorter or empty value is
      skipped. */
  function MaskOne(text: string, v: string): string
  {
    if |v| > 4 then Replace(text, v, MaskValue(v)) else text
  }

  /** The values masked one after another, in list order. */
  function MaskAll(text: string, values: seq<string>): string
    decreases |values|
  {
    if values == [] then text
    else MaskOne(MaskAll(text, values[..|values| - 1]), values[|values| - 1])
  }

  /** `mask_credentials`: the four credential values are masked in field order. */
  method MaskCredentials(text: string, credentials: Credentials) returns (masked: string)
    ensures masked == MaskAll(text, credentials.Values())
  {
    masked := text;
    var values := credentials.Values();
    for i := 0 to |values|
      invariant masked == MaskAll(text, values[..i])
    {
      assert values[..i + 1][..i] == values[..i];
      var value := values[i];
      if value != "" && |value| > 4 {
        masked := Replace(masked, value, MaskValue(value));
      }
    }
    assert values[..|values|] == values;
  }

  /** Values of length at most 4 (the empty one included) change nothing. */
  lemma {:induction false} MaskAllShortValues(text: string, values: seq<string>)
    requires forall k :: 0 <= k < |values| ==> |values[k]| <= 4
    ensures MaskAll(text, values) == text
    decreases |values|
  {
    if values != [] {
      MaskAllShortValues(text, values[..|values| - 1]);
    }
  }

  /** A text that contains none of the values comes back unchanged. */
  lemma {:induction false} MaskAllAbsent(text: string, values: seq<string>)
    requires forall k :: 0 <= k < |values| ==> !Contains(text, values[k])
    ensures MaskAll(text, values) == text
    decreases |values|
  {
    if values != [] {
      var last := values[|values| - 1];
      MaskAllAbsent(text, values[..|values| - 1]);
      if |last| > 4 {
        ReplaceAbsent(text, last, MaskValue(last));
      }
    }
  }

  /** Masking never changes the length of the text. */
  lemma {:induction false} MaskAllKeepsLength(text: string, values: seq<string>)
    ensures |MaskAll(text, values)| == |text|
    decreases |values|
  {
    if values != [] {
      var last := values[|values| - 1];
      MaskAllKeepsLength(text, values[..|values| - 1]);
      if |last| > 4 {
        ReplaceKeepsLength(MaskAll(text, values[..|values| - 1]), last, MaskValue(last));
      }
    }
  }

  // ---------------------------------------------------------------------------
  // Overlapping occurrences of a credential value
  // ---------------------------------------------------------------------------

  /** A value whose occurrences in the text overlap survives the masking:
      `replace` masks the first occurrence and then resumes after it, so the
      occurrence sharing its last two characters is left as it is. */
  lemma MaskLeavesOverlappingValue()
    ensures MaskAll("abXYZabXYZab", ["abXYZab"]) == "ab***abXYZab"
    ensures Contains(MaskAll("abXYZabXYZab", ["abXYZab"]), "abXYZab")
  {
    var text, v := "abXYZabXYZab", "abXYZab";
    assert ["abXYZab"][..0] == [];
    assert Stars(3) == "***";
    assert MaskValue(v) == "ab***ab";
    assert text[..|v|] == v;
    assert Replace(text[|v|..], v, "ab***ab") == "XYZab";
    assert MaskAll(text, [v]) == Replace(text, v, "ab***ab");
    var r := "ab***abXYZab";
    assert OccursAt(r, v, 5);
    ContainsIff(r, v);
  }

  /** The value occurs nowhere with two of its occurrences overlapping. */
  ghost predicate NonOverlapping(text: string, v: string)
  {
    forall p, q :: OccursAt(text, v, p) && OccursAt(text, v, q) && p < q ==> p + |v| <= q
  }

  /** Position `i` lies inside an occurrence of `v`, past its first two and
      before its last two characters. */
  predicate Covered(text: string, v: string, i: int)
  {
    exists q :: 0 <= q <= i && OccursAt(text, v, q) && q + 2 <= i < q + |v| - 2
  }

  /** The masking of one value that the masking loop evidently intends: every
      character inside an occurrence of a value longer than 4, its first two
      and last two characters apart, becomes `*`, overlapping or not. */
  function MaskOneCovering(text: string, v: string): (r: string)
    ensures |r| == |text|
  {
    if |v| > 4 then seq(|text|, i requires 0 <= i < |text| => if Covered(text, v, i) then '*' else text[i])
    else text
  }

  /** The intended masking of the values, one after another, in list order. */
  function MaskAllCovering(text: string, values: seq<string>): (r: string)
    ensures |r| == |text|
    decreases |values|
  {
    if values == [] then text
    else MaskOneCovering(MaskAllCovering(text, values[..|values| - 1]), values[|values| - 1])
  }

  predicate NoStar(v: string)
  {
    forall k :: 0 <= k < |v| ==> v[k] != '*'
  }

  /** `b` is `a` with some of its characters turned into `*`. */
  predicate Starred(a: string, b: string)
  {
    |a| == |b| && forall i :: 0 <= i < |a| ==> b[i] == a[i] || b[i] == '*'
  }

  /** Turning characters into `*` cannot bring back a value without `*`. */
  lemma StarredKeepsAbsence(a: string, b: string, v: string)
    requires Starred(a, b) && NoStar(v) && !Contains(a, v)
    ensures !Contains(b, v)
  {
    ContainsIff(a, v);
    ContainsIff(b, v);
    forall j | OccursAt(b, v, j) ensures OccursAt(a, v, j) {
      StarredOccurrence(a, b, v, j);
    }
  }

  /** An occurrence of a value without `*` in a starred text was already in
      the original. */
  lemma StarredOccurrence(a: string, b: string, v: string, j: int)
    requires Starred(a, b) && NoStar(v) && OccursAt(b, v, j)
    ensures OccursAt(a, v, j)
  {
    forall k | 0 <= k < |v| ensures a[j + k] == v[k] {
      assert b[j..j + |v|][k] == v[k];
    }
    assert a[j..j + |v|] == v;
  }

  /** The intended masking hides every occurrence of a value without `*`,
      and changes characters only into `*`. */
  lemma MaskOneCoveringHides(text: string, v: string)
    ensures Starred(text, MaskOneCovering(text, v))
    ensures |v| > 4 && NoStar(v) ==> !Contains(MaskOneCovering(text, v), v)
  {
    var r := MaskOneCovering(text, v);
    assert Starred(text, r);
    if |v| > 4 && NoStar(v) {
      ContainsIff(r, v);
      forall j | OccursAt(text, v, j) ensures r[j + 2] == '*' {
        assert Covered(text, v, j + 2);
      }
      forall j | OccursAt(r, v, j) ensures OccursAt(text, v, j) && r[j + 2] == v[2] {
        StarredOccurrence(text, r, v, j);
        assert r[j..j + |v|][2] == v[2];
      }
    }
  }

  /** After the intended masking no value longer than 4 and without `*`
      occurs in the text, whatever the order or overlap of the values. */
  lemma {:induction false} MaskAllCoveringHides(text: string, values: seq<string>)
    ensures Starred(text, MaskAllCovering(text, values))
    ensures forall k :: 0 <= k < |values| && |values[k]| > 4 && NoStar(values[k]) ==>
      !Contains(MaskAllCovering(text, values), values[k])
    decreases |values|
  {
    if values != [] {
      var init := values[..|values| - 1];
      var last := values[|values| - 1];
      var p := MaskAllCovering(text, init);
      var r := MaskOneCovering(p, last);
      MaskAllCoveringHides(text, init);
      MaskOneCoveringHides(p, last);
      forall k | 0 <= k < |values| && |values[k]| > 4 && NoStar(values[k])
        ensures !Contains(r, values[k])
      {
        if k < |init| {
          assert values[k] == init[k];
          StarredKeepsAbsence(p, r, values[k]);
        }
      }
    }
  }

  lemma OccursShift(s: string, v: string, k: nat, q: nat)
    requires k <= |s|
    ensures OccursAt(s[k..], v, q) <==> OccursAt(s, v, q + k)
  {
    if q + |v| <= |s| - k {
      assert s[k..][q..q + |v|] == s[q + k..q + k + |v|];
    }
  }

  lemma NonOverlappingSuffix(s: string, v: string, k: nat)
    requires k <= |s| && NonOverlapping(s, v)
    ensures NonOverlapping(s[k..], v)
  {
    forall p, q | OccursAt(s[k..], v, p) && OccursAt(s[k..], v, q) && p < q
      ensures p + |v| <= q
    {
      OccursShift(s, v, k, p);
      OccursShift(s, v, k, q);
    }
  }

  /** Inside a leading occurrence, only its middle is covered: no other
      occurrence overlaps it. */
  lemma CoveredInHead(s: string, v: string, i: nat)
    requires |v| > 4 && NonOverlapping(s, v) && OccursAt(s, v, 0) && i < |v|
    ensures Covered(s, v, i) <==> 2 <= i < |v| - 2
  {
    if Covered(s, v, i) {
      var q :| 0 <= q <= i && OccursAt(s, v, q) && q + 2 <= i < q + |v| - 2;
      assert q == 0;
    }
    if 2 <= i < |v| - 2 {
      assert OccursAt(s, v, 0) && 0 + 2 <= i < 0 + |v| - 2;
    }
  }

  /** Past a leading occurrence, coverage is that of the rest of the text. */
  lemma CoveredAfterHead(s: string, v: string, i: nat)
    requires |v| > 4 && NonOverlapping(s, v) && OccursAt(s, v, 0) && |v| <= i < |s|
    ensures Covered(s, v, i) <==> Covered(s[|v|..], v, i - |v|)
  {
    var n := |v|;
    if Covered(s, v, i) {
      var q :| 0 <= q <= i && OccursAt(s, v, q) && q + 2 <= i < q + n - 2;
      assert n <= q;
      OccursShift(s, v, n, q - n);
      assert OccursAt(s[n..], v, q - n) && q - n + 2 <= i - n < q - n + n - 2;
    }
    if Covered(s[n..], v, i - n) {
      var q :| 0 <= q <= i - n && OccursAt(s[n..], v, q) && q + 2 <= i - n < q + n - 2;
      OccursShift(s, v, n, q);
      assert OccursAt(s, v, q + n) && q + n + 2 <= i < q + n + n - 2;
    }
  }

  /** With no occurrence at the start, coverage past the first character is
      that of the rest of the text. */
  lemma CoveredAfterMiss(s: string, v: string, i: nat)
    requires !OccursAt(s, v, 0) && 1 <= i < |s|
    ensures Covered(s, v, i) <==> Covered(s[1..], v, i - 1)
  {
    if Covered(s, v, i) {
      var q :| 0 <= q <= i && OccursAt(s, v, q) && q + 2 <= i < q + |v| - 2;
      OccursShift(s, v, 1, q - 1);
      assert OccursAt(s[1..], v, q - 1) && q - 1 + 2 <= i - 1 < q - 1 + |v| - 2;
    }
    if Covered(s[1..], v, i - 1) {
      var q :| 0 <= q <= i - 1 && OccursAt(s[1..], v, q) && q + 2 <= i - 1 < q + |v| - 2;
      OccursShift(s, v, 1, q);
      assert OccursAt(s, v, q + 1) && q + 1 + 2 <= i < q + 1 + |v| - 2;
    }
  }

  /** Where the occurrences of a value do not overlap, `replace` is the
      intended masking. */
  lemma {:induction false} ReplaceIsCovering(s: string, v: string)
    requires |v| > 4 && NonOverlapping(s, v)
    ensures Replace(s, v, MaskValue(v)) == MaskOneCovering(s, v)
    decreases |s|
  {
    var n := |v|;
    var m := MaskValue(v);
    var c := MaskOneCovering(s, v);
    if |s| < n {
      forall i | 0 <= i < |s| ensures c[i] == s[i] {
        assert !Covered(s, v, i);
      }
    } else if s[..n] == v {
      ReplaceIsCoveringHead(s, v);
    } else {
      var t := s[1..];
      assert !OccursAt(s, v, 0) by { assert s[0..n] == s[..n]; }
      NonOverlappingSuffix(s, v, 1);
      ReplaceIsCovering(t, v);
      var ct := MaskOneCovering(t, v);
      assert Replace(s, v, m) == [s[0]] + ct;
      forall i | 0 <= i < |s| ensures ([s[0]] + ct)[i] == c[i] {
        if i == 0 {
          assert !Covered(s, v, 0);
        } else {
          CoveredAfterMiss(s, v, i);
          assert t[i - 1] == s[i];
        }
      }
    }
  }

  /** The case of `ReplaceIsCovering` where the text starts with the value. */
  lemma {:induction false} ReplaceIsCoveringHead(s: string, v: string)
    requires |v| > 4 && NonOverlapping(s, v) && |v| <= |s| && s[..|v|] == v
    ensures Replace(s, v, MaskValue(v)) == MaskOneCovering(s, v)
    decreases |s|, 0
  {
    var n := |v|;
    var m := MaskValue(v);
    var c := MaskOneCovering(s, v);
    var t := s[n..];
    NonOverlappingSuffix(s, v, n);
    ReplaceIsCovering(t, v);
    var ct := MaskOneCovering(t, v);
    assert Replace(s, v, m) == m + ct;
    assert OccursAt(s, v, 0) by { assert s[0..n] == s[..n]; }
    forall i | 0 <= i < |s| ensures (m + ct)[i] == c[i] {
      if i < n {
        CoveredInHead(s, v, i);
        if i < 2 {
          assert m[..2][i] == v[..2][i];
          assert s[..n][i] == v[i];
        } else if n - 2 <= i {
          assert m[n - 2..][i - (n - 2)] == v[n - 2..][i - (n - 2)];
          assert s[..n][i] == v[i];
        }
      } else {
        CoveredAfterHead(s, v, i);
        assert t[i - n] == s[i];
      }
    }
  }

  /** Hence the masking as written does hide a value without `*` whose
      occurrences in the text do not overlap. */
  lemma ReplaceHidesNonOverlapping(text: string, v: string)
    requires |v| > 4 && NoStar(v) && NonOverlapping(text, v)
    ensures !Contains(MaskOne(text, v), v)
  {
    ReplaceIsCovering(text, v);
    MaskOneCoveringHides(text, v);
  }
}
