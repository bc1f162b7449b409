/**
 * Contact extraction from free text (`extract_emails`, `extract_phone_numbers`).
 * The regular expressions are not modelled: `Matcher` stands for `re.findall`
 * with one of the program's five patterns, and everything the code does with
 * the matches is modelled.
 */
module Extract {
  import opened Wrappers

  /** The program's regular expressions. */
  datatype Pattern =
    | EmailPattern          // local@domain.tld
    | UsPhone               // optional +1, optional parentheses, 3-3-4 digits
    | InternationalPhone    // 1-3, 1-4, 1-4, 1-9 digit groups
    | ParenthesisedPhone    // (xxx) xxx-xxxx
    | DashedPhone           // xxx-xxx-xxxx

  /** `re.findall(pattern, text)`: the matches, left to right. */
  type Matcher = (Pattern, string) -> seq<string>

  /** The phone patterns, in the order their matches are concatenated. */
  const PhonePatterns: seq<Pattern> := [UsPhone, InternationalPhone, ParenthesisedPhone, DashedPhone]

  /** `not text`: true for `None` and for the empty string. */
  predicate Falsy(text: Option<string>)
  {
    text == None || text == Some("")
  }

  /** `extract_emails`: no matching at all on missing or empty text. */
  function ExtractEmails(text: Option<string>, findall: Matcher): (emails: seq<string>)
    ensures Falsy(text) ==> emails == []
    ensures !Falsy(text) ==> emails == findall(EmailPattern, text.value)
  {
    if Falsy(text) then [] else findall(EmailPattern, text.value)
  }

  /** The characters `[^\d+]` does not remove. */
  predicate IsPhoneChar(c: char)
  {
    '0' <= c <= '9' || c == '+'
  }

  /** `re.sub(r'[^\d+]', '', s)`: keeps digits and every `+`, wherever it is. */
  function Clean(s: string): (r: string)
    ensures |r| <= |s|
    ensures forall k :: 0 <= k < |r| ==> IsPhoneChar(r[k])
    ensures |r| == |s| <==> forall k :: 0 <= k < |s| ==> IsPhoneChar(s[k])
    ensures |r| == |s| ==> r == s
    decreases |s|
  {
    if |s| == 0 then ""
    else
      var rest := Clean(s[1..]);
      assert forall k :: 0 <= k < |s[1..]| ==> s[1..][k] == s[k + 1];
      if IsPhoneChar(s[0]) then [s[0]] + rest else rest
  }

  /** Cleaning works piece by piece. */
  lemma {:induction false} CleanAppend(a: string, b: string)
    ensures Clean(a + b) == Clean(a) + Clean(b)
  {
    if |a| > 0 {
      assert (a + b)[1..] == a[1..] + b;
      CleanAppend(a[1..], b);
    } else {
      assert a + b == b;
    }
  }

  /**
   * A `+` is kept wherever it stands, not only in front, and counts toward
   * the length of 10.
   */
  lemma PlusKeptAnywhere(a: string, b: string)
    ensures Clean(a + "+" + b) == Clean(a) + "+" + Clean(b)
    ensures |Clean(a + "+" + b)| == |Clean(a)| + 1 + |Clean(b)|
  {
    CleanAppend(a + "+", b);
    CleanAppend(a, "+");
    assert Clean("+") == "+";
  }

  /** The concatenated matches of `patterns`, in order (the `extend` loop). */
  function MatchesOf(findall: Matcher, text: string, patterns: seq<Pattern>): seq<string>
  {
    if patterns == [] then []
    else MatchesOf(findall, text, patterns[..|patterns| - 1]) + findall(patterns[|patterns| - 1], text)
  }

  /** All phone candidates of `text`: pattern 1's matches, then 2's, 3's and 4's. */
  function Candidates(findall: Matcher, text: string): seq<string>
  {
    MatchesOf(findall, text, PhonePatterns)
  }

  lemma CandidatesInOrder(findall: Matcher, text: string)
    ensures Candidates(findall, text) ==
            findall(UsPhone, text) + findall(InternationalPhone, text)
            + findall(ParenthesisedPhone, text) + findall(DashedPhone, text)
  {
    var ps := PhonePatterns;
    assert ps[..|ps| - 1] == [UsPhone, InternationalPhone, ParenthesisedPhone];
    var ps3 := ps[..|ps| - 1];
    assert ps3[..|ps3| - 1] == [UsPhone, InternationalPhone];
    var ps2 := ps3[..|ps3| - 1];
    assert ps2[..|ps2| - 1] == [UsPhone];
    var ps1 := ps2[..|ps2| - 1];
    assert ps1[..|ps1| - 1] == [];
    assert MatchesOf(findall, text, ps1) == findall(UsPhone, text);
    assert MatchesOf(findall, text, ps2) == findall(UsPhone, text) + findall(InternationalPhone, text);
    assert MatchesOf(findall, text, ps3) == MatchesOf(findall, text, ps2) + findall(ParenthesisedPhone, text);
    assert MatchesOf(findall, text, ps) == MatchesOf(findall, text, ps3) + findall(DashedPhone, text);
  }

  /**
   * The membership test of the clean-up loop: the cleaned candidate is long
   * enough and is not one of the ORIGINAL strings kept so far.
   */
  predicate Accepts(kept: seq<string>, num: string)
  {
    |Clean(num)| >= 10 && Clean(num) !in kept
  }

  /** The strings the clean-up loop has kept after seeing `cands`. */
  function KeptPhones(cands: seq<string>): (r: seq<string>)
    ensures |r| <= |cands|
    ensures forall x :: x in r ==> x in cands
  {
    if cands == [] then []
    else
      var prior := KeptPhones(cands[..|cands| - 1]);
      var num := cands[|cands| - 1];
      if Accepts(prior, num) then prior + [num] else prior
  }

  /** `extract_phone_numbers`, as a value. */
  function PhoneNumbers(text: Option<string>, findall: Matcher): (r: seq<string>)
    ensures Falsy(text) ==> r == []
    ensures !Falsy(text) ==> forall x :: x in r ==> x in Candidates(findall, text.value)
  {
    if Falsy(text) then [] else KeptPhones(Candidates(findall, text.value))
  }

  /** The positions of the candidates the clean-up loop keeps, in increasing order. */
  function KeptPositions(cands: seq<string>): seq<nat>
  {
    if cands == [] then []
    else
      var prior := KeptPositions(cands[..|cands| - 1]);
      if Accepts(KeptPhones(cands[..|cands| - 1]), cands[|cands| - 1]) then prior + [|cands| - 1] else prior
  }

  /**
   * The output is the subsequence of the candidates at `KeptPositions`, in
   * candidate order.
   */
  lemma {:induction false} KeptPhonesSubsequence(cands: seq<string>)
    ensures |KeptPositions(cands)| == |KeptPhones(cands)|
    ensures forall k :: 0 <= k < |KeptPositions(cands)| ==>
              KeptPositions(cands)[k] < |cands| && KeptPhones(cands)[k] == cands[KeptPositions(cands)[k]]
    ensures forall k, l :: 0 <= k < l < |KeptPositions(cands)| ==> KeptPositions(cands)[k] < KeptPositions(cands)[l]
  {
    if cands != [] {
      var n := |cands| - 1;
      var init := cands[..n];
      KeptPhonesSubsequence(init);
      var pos, kept := KeptPositions(init), KeptPhones(init);
      assert forall k :: 0 <= k < |pos| ==> init[pos[k]] == cands[pos[k]];
      if Accepts(kept, cands[n]) {
        assert KeptPositions(cands) == pos + [n];
        assert KeptPhones(cands) == kept + [cands[n]];
      } else {
        assert KeptPositions(cands) == pos;
        assert KeptPhones(cands) == kept;
      }
    }
  }

  /**
   * Candidate `i` is kept exactly when its cleaned form is at least 10 long and
   * is not one of the strings kept before it.
   */
  lemma {:induction false} KeptPhonesDecision(cands: seq<string>)
    ensures forall i :: 0 <= i < |cands| ==>
              (i in KeptPositions(cands) <==> Accepts(KeptPhones(cands[..i]), cands[i]))
  {
    if cands != [] {
      var n := |cands| - 1;
      var init := cands[..n];
      KeptPhonesDecision(init);
      KeptPositionsBelow(init);
      var pos := KeptPositions(init);
      var acc := Accepts(KeptPhones(init), cands[n]);
      assert KeptPositions(cands) == if acc then pos + [n] else pos;
      forall i | 0 <= i < |cands|
        ensures i in KeptPositions(cands) <==> Accepts(KeptPhones(cands[..i]), cands[i])
      {
        if i < n {
          assert init[..i] == cands[..i] && init[i] == cands[i];
          assert i in KeptPositions(cands) <==> i in pos;
        } else {
          assert cands[..i] == init;
          assert n !in pos;
        }
      }
    }
  }

  lemma {:induction false} KeptPositionsBelow(cands: seq<string>)
    ensures forall i :: i in KeptPositions(cands) ==> i < |cands|
  {
    if cands != [] {
      KeptPositionsBelow(cands[..|cands| - 1]);
    }
  }

  /** Every returned string has a cleaned length of at least 10. */
  lemma {:induction false} KeptPhonesLongEnough(cands: seq<string>)
    ensures forall k :: 0 <= k < |KeptPhones(cands)| ==> |Clean(KeptPhones(cands)[k])| >= 10
  {
    if cands != [] {
      KeptPhonesLongEnough(cands[..|cands| - 1]);
    }
  }

  /**
   * What the membership test does guarantee: no kept string equals the cleaned
   * form of a string kept after it.
   */
  lemma {:induction false} KeptPhonesNoCleanCollision(cands: seq<string>)
    ensures forall i, j :: 0 <= i < j < |KeptPhones(cands)| ==> KeptPhones(cands)[i] != Clean(KeptPhones(cands)[j])
  {
    if cands != [] {
      KeptPhonesNoCleanCollision(cands[..|cands| - 1]);
    }
  }

  /**
   * The same candidate seen twice is dropped the second time only when it has
   * no formatting at all (its cleaned form is itself); "555-123-4567", which the
   * US, the international and the dashed patterns all match, is returned three times.
   */
  lemma RepeatedCandidate(x: string)
    requires |Clean(x)| >= 10
    ensures KeptPhones([x, x]) == [x] <==> Clean(x) == x
    ensures Clean(x) != x ==> KeptPhones([x, x]) == [x, x]
  {
    assert [x][..0] == [];
    assert KeptPhones([x]) == [x];
    assert [x, x][..1] == [x];
  }

  /**
   * Two spellings of one number (same cleaned form) are both kept unless the
   * second's cleaned form is the first's literal text.
   */
  lemma TwoSpellings(x: string, y: string)
    requires |Clean(x)| >= 10 && Clean(x) == Clean(y)
    ensures KeptPhones([x, y]) == [x, y] <==> Clean(y) != x
  {
    assert [x][..0] == [];
    assert KeptPhones([x]) == [x];
    assert [x, y][..1] == [x];
  }

  /**
   * `extract_phone_numbers`: on missing or empty text nothing; otherwise the
   * candidates of the four patterns in order, each cleaned and kept when the
   * cleaned form is at least 10 long and not among the strings kept so far.
   */
  method ExtractPhoneNumbers(text: Option<string>, findall: Matcher) returns (phones: seq<string>)
    ensures phones == PhoneNumbers(text, findall)
    ensures Falsy(text) ==> phones == []
    ensures forall k :: 0 <= k < |phones| ==> |Clean(phones[k])| >= 10
  {
    if Falsy(text) {
      return [];
    }
    var candidates: seq<string> := [];
    for p := 0 to |PhonePatterns|
      invariant candidates == MatchesOf(findall, text.value, PhonePatterns[..p])
    {
      assert PhonePatterns[..p + 1][..p] == PhonePatterns[..p];
      candidates := candidates + findall(PhonePatterns[p], text.value);
    }
    assert PhonePatterns[..|PhonePatterns|] == PhonePatterns;
    phones := [];
    for i := 0 to |candidates|
      invariant phones == KeptPhones(candidates[..i])
    {
      var num := candidates[i];
      var cleaned := Clean(num);
      assert candidates[..i + 1][..i] == candidates[..i];
      if |cleaned| >= 10 && cleaned !in phones {
        phones := phones + [num];
      }
    }
    assert candidates[..|candidates|] == candidates;
    KeptPhonesLongEnough(candidates);
  }
}
