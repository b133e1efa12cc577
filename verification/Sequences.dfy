/** Facts about sequences that several proofs need. */
module Sequences {
  lemma Regroup<T>(a: seq<T>, b: seq<T>, c: seq<T>)
    ensures (a + b) + c == a + (b + c)
  {
  }

  lemma SplitTwo<T>(s: seq<T>)
    requires |s| >= 2
    ensures s == [s[0]] + ([s[1]] + s[2..]) && s[1..][1..] == s[2..] && s[1..][0] == s[1]
  {
  }

  lemma JoinTwo<T>(a: T, b: T, rest: seq<T>)
    ensures var s := [a] + ([b] + rest); |s| == 2 + |rest| && s[0] == a && s[1] == b && s[2..] == rest
  {
  }
}
