/** Names, label keys and decimal numbers: how an ordinal is printed into a label or a
    pod name, and how the pod webhook reads it back. */
module Naming {

  type Labels = map<string, string>

  const INDEX_KEY := "index.model.robokube.io/"
  const GROUP_KEY := "group.robokube.io/"
  const MODEL_KEY := "model.robokube.io"

  function IndexKey(model: string): string {
    INDEX_KEY + model
  }

  function GroupKey(group: string): string {
    GROUP_KEY + group
  }

  predicate IsGroupKey(key: string) {
    GROUP_KEY <= key
  }

  // ---------- printing ----------

  predicate IsDigit(c: char) {
    '0' <= c <= '9'
  }

  predicate AllDigits(s: string) {
    forall k :: 0 <= k < |s| ==> IsDigit(s[k])
  }

  function Digit(d: nat): (c: char)
    requires d < 10
    ensures IsDigit(c) && c as int - '0' as int == d
  {
    ('0' as int + d) as char
  }

  function Decimal(n: nat): (s: string)
    ensures |s| > 0 && AllDigits(s)
  {
    if n < 10 then [Digit(n)] else Decimal(n / 10) + [Digit(n % 10)]
  }

  /** The `%d` verb. */
  function Print(i: int): string {
    if i < 0 then "-" + Decimal(-i) else Decimal(i)
  }

  // ---------- parsing ----------

  function Value(s: string): int
    requires AllDigits(s)
  {
    if s == "" then 0 else Value(s[..|s| - 1]) * 10 + (s[|s| - 1] as int - '0' as int)
  }

  /** `strconv.Atoi` with its error discarded: malformed text reads as 0. */
  function Atoi(s: string): int {
    var signed := s != "" && (s[0] == '-' || s[0] == '+');
    var digits := if signed then s[1..] else s;
    if digits == "" || !AllDigits(digits) then 0
    else if signed && s[0] == '-' then -Value(digits)
    else Value(digits)
  }

  /** `strings.Split(s, "-")`. */
  function Split(s: string): (parts: seq<string>)
    ensures |parts| >= 1
  {
    if s == "" then [""]
    else
      var rest := Split(s[1..]);
      if s[0] == '-' then [""] + rest else [[s[0]] + rest[0]] + rest[1..]
  }

  /** The number the pod webhook reads off the end of a pod's name. */
  function Sequence(podName: string): int {
    var parts := Split(podName);
    Atoi(parts[|parts| - 1])
  }

  // ---------- round trips ----------

  lemma {:induction false} ValueOfDecimal(n: nat)
    ensures Value(Decimal(n)) == n
  {
    if n >= 10 {
      ValueOfDecimal(n / 10);
      var s := Decimal(n);
      assert s[..|s| - 1] == Decimal(n / 10);
    } else {
      assert Decimal(n)[..0] == "";
    }
  }

  lemma AtoiPrint(i: int)
    ensures Atoi(Print(i)) == i
  {
    if i < 0 {
      ValueOfDecimal(-i);
      assert Print(i)[1..] == Decimal(-i);
    } else {
      ValueOfDecimal(i);
      assert IsDigit(Print(i)[0]);
    }
  }

  lemma PrintInjective(i: int, j: int)
    requires Print(i) == Print(j)
    ensures i == j
  {
    AtoiPrint(i);
    AtoiPrint(j);
  }

  lemma {:induction false} SplitDashFree(t: string)
    requires '-' !in t
    ensures Split(t) == [t]
  {
    if t != "" {
      SplitDashFree(t[1..]);
      assert t == [t[0]] + t[1..];
    }
  }

  lemma {:induction false} LastOfSplit(s: string, t: string)
    requires '-' !in t
    ensures var parts := Split(s + "-" + t); |parts| >= 2 && parts[|parts| - 1] == t
  {
    var whole := s + "-" + t;
    if s == "" {
      assert whole[1..] == t;
      SplitDashFree(t);
    } else {
      assert whole[1..] == s[1..] + "-" + t;
      LastOfSplit(s[1..], t);
    }
  }

  /** Whatever precedes it, dashes included, the ordinal at the end of `<prefix>-<i>` reads back. */
  lemma SequenceOfOrdinalName(prefix: string, i: nat)
    ensures Sequence(prefix + "-" + Print(i)) == i
  {
    forall k | 0 <= k < |Print(i)| ensures Print(i)[k] != '-' {
      assert IsDigit(Print(i)[k]);
    }
    LastOfSplit(prefix, Print(i));
    AtoiPrint(i);
  }

  /** A name that does not end in a number reads as number 0. */
  lemma SequenceOfMalformed(prefix: string, t: string)
    requires '-' !in t && (t == "" || (!AllDigits(t) && !(t[0] == '+' && t[1..] != "" && AllDigits(t[1..]))))
    ensures Sequence(prefix + "-" + t) == 0
  {
    LastOfSplit(prefix, t);
    assert t != "" ==> t[0] != '-';
  }

  lemma OrdinalNameInjective(prefix: string, i: nat, j: nat)
    requires prefix + "-" + Print(i) == prefix + "-" + Print(j)
    ensures i == j
  {
    SequenceOfOrdinalName(prefix, i);
    SequenceOfOrdinalName(prefix, j);
  }

  /** The group keys are the keys of groups. */
  lemma GroupKeysExactly(key: string)
    ensures IsGroupKey(key) <==> exists group :: key == GroupKey(group)
  {
    if IsGroupKey(key) { assert key == GroupKey(key[|GROUP_KEY|..]); }
  }

  /** A group key is never an index key, and distinct groups have distinct keys. */
  lemma KeysApart(model: string, group: string, other: string)
    ensures GroupKey(group) != IndexKey(model)
    ensures IsGroupKey(GroupKey(group)) && !IsGroupKey(IndexKey(model)) && !IsGroupKey(MODEL_KEY)
    ensures GroupKey(group) == GroupKey(other) ==> group == other
  {
    assert GroupKey(group)[0] == 'g' && IndexKey(model)[0] == 'i' && MODEL_KEY[0] == 'm';
    assert GroupKey(group)[|GROUP_KEY|..] == group && GroupKey(other)[|GROUP_KEY|..] == other;
  }
}
