/**
 * The account settings form: a nickname is set once, and only when it is
 * 2 to 30 characters of letters, digits, hyphens and underscores with at
 * least one letter or digit.
 */
module Accounts {
  import opened Text

  const NicknameLockedMessage := "Nickname cannot be changed once set."
  const NicknameLengthMessage := "Nickname must be between 2 and 30 characters."
  const NicknameCharsMessage := "Nickname can only contain letters, numbers, hyphens, and underscores."
  const NicknameTakenMessage := "This nickname is already taken."

  datatype NicknameOutcome =
    | NoChange
    | NicknameSet(nickname: string)
    | NicknameRefused(message: string)

  predicate IsNicknameChar(c: char) {
    IsAlnum(c) || c == '-' || c == '_'
  }

  /** The rule the form enforces, stated on the characters themselves. */
  predicate ValidNickname(n: string) {
    && 2 <= |n| <= 30
    && (forall i :: 0 <= i < |n| ==> IsNicknameChar(n[i]))
    && (exists i :: 0 <= i < |n| && IsAlnum(n[i]))
  }

  /** The form's check `n.replace('_', '').replace('-', '').isalnum()` accepts
      exactly the names made of letters, digits, `-` and `_` that hold at
      least one letter or digit. */
  lemma CharsCheck(n: string)
    ensures IsAlnumString(Without(Without(n, '_'), '-')) <==>
      && (forall i :: 0 <= i < |n| ==> IsNicknameChar(n[i]))
      && (exists i :: 0 <= i < |n| && IsAlnum(n[i]))
  {
    var w := Without(Without(n, '_'), '-');
    assert forall x :: x in w <==> x in n && x != '_' && x != '-';
    if IsAlnumString(w) {
      forall i | 0 <= i < |n| ensures IsNicknameChar(n[i]) {
        if n[i] != '_' && n[i] != '-' {
          assert n[i] in w;
        }
      }
      assert w[0] in n;
      var k :| 0 <= k < |n| && n[k] == w[0];
      assert IsAlnum(n[k]);
    }
    if (forall i :: 0 <= i < |n| ==> IsNicknameChar(n[i])) && (exists i :: 0 <= i < |n| && IsAlnum(n[i])) {
      var k :| 0 <= k < |n| && IsAlnum(n[k]);
      assert n[k] in w;
      forall j | 0 <= j < |w| ensures IsAlnum(w[j]) {
        assert w[j] in n;
      }
    }
  }

  /** The POST branch of the settings form. `current` is the nickname already
      set (empty when none); `others` are the nicknames other users hold,
      which the unique column refuses. */
  function SetNickname(current: string, input: string, others: set<string>): (r: NicknameOutcome)
    ensures Strip(input) == "" <==> r == NoChange
    ensures r.NicknameSet? <==>
      current == "" && ValidNickname(Strip(input)) && Strip(input) !in others
    ensures r.NicknameSet? ==> r.nickname == Strip(input)
    ensures Strip(input) != "" && current != "" ==> r == NicknameRefused(NicknameLockedMessage)
    ensures r.NicknameRefused? && r.message == NicknameLengthMessage ==>
      |Strip(input)| < 2 || |Strip(input)| > 30
  {
    Decide(current, Strip(input), others)
  }

  /** The checks of the form, in order, on the stripped input `n`. */
  function Decide(current: string, n: string, others: set<string>): (r: NicknameOutcome)
    ensures n == "" <==> r == NoChange
    ensures r.NicknameSet? <==> current == "" && ValidNickname(n) && n !in others
    ensures r.NicknameSet? ==> r.nickname == n
    ensures n != "" && current != "" ==> r == NicknameRefused(NicknameLockedMessage)
    ensures r.NicknameRefused? && r.message == NicknameLengthMessage ==> |n| < 2 || |n| > 30
  {
    CharsCheck(n);
    if n != "" && current != "" then NicknameRefused(NicknameLockedMessage)
    else if n == "" then NoChange
    else if |n| < 2 || |n| > 30 then NicknameRefused(NicknameLengthMessage)
    else if !IsAlnumString(Without(Without(n, '_'), '-')) then NicknameRefused(NicknameCharsMessage)
    else if n in others then NicknameRefused(NicknameTakenMessage)
    else NicknameSet(n)
  }

  /** A nickname, once set, can never be changed by the form. */
  lemma NicknameSetOnce(current: string, input: string, others: set<string>)
    requires current != ""
    ensures !SetNickname(current, input, others).NicknameSet?
  {
  }

  /** Surrounding whitespace does not matter: the form strips first. */
  lemma NicknameIgnoresPadding(current: string, w1: string, n: string, w2: string, others: set<string>)
    requires AllSpace(w1) && AllSpace(w2)
    ensures SetNickname(current, w1 + n + w2, others) == SetNickname(current, n, others)
  {
    StripPadded(w1, n, w2);
  }
}
