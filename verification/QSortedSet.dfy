/** The least element of a set of integers. */
module LeastElement {
  lemma {:induction false} LeastExists(s: set<int>, y: int) returns (m: int)
    requires y in s
    ensures m in s && forall x :: x in s ==> m <= x
    decreases |s|
  {
    m := y;
    if w :| w in s && w != y {
      assert |s - {y}| < |s|;
      m := LeastExists(s - {y}, w);
      assert forall x :: x in s ==> x == y || x in s - {y};
      if y < m { m := y; }
    }
  }

  function Least(s: set<int>): (m: int)
    requires exists y :: y in s
    ensures m in s && forall x :: x in s ==> m <= x
  {
    assert exists m :: m in s && forall x :: x in s ==> m <= x by {
      var y :| y in s;
      var m := LeastExists(s, y);
    }
    var m :| m in s && forall x :: x in s ==> m <= x;
    m
  }
}

/** Sorted sets: QedisCore/QSortedSet.cc, two indexes of the same pairs. Scores are integers, as only their order and
    their sums matter. The ordered containers are traversed from the least key up, strings in the order of their
    bytes. */
module QSortedSet {
  import opened Bytes
  import opened LeastElement

  type QString = seq<byte>

  // ----- the order of names -----

  predicate Before(a: QString, b: QString) {
    b != [] && (a == [] || a[0] < b[0] || (a[0] == b[0] && Before(a[1..], b[1..])))
  }

  /** Two names compare at the first byte where they differ; a proper prefix comes first. */
  lemma {:induction false} BeforeIs(a: QString, b: QString)
    ensures Before(a, b) <==> exists i :: DiffersAt(a, b, i)
    decreases |a|
  {
    if a != [] && b != [] && a[0] == b[0] {
      BeforeIs(a[1..], b[1..]);
      if i :| DiffersAt(a[1..], b[1..], i) {
        assert a[..i + 1] == [a[0]] + a[1..][..i] && b[..i + 1] == [b[0]] + b[1..][..i];
        assert DiffersAt(a, b, i + 1);
      }
      if i :| DiffersAt(a, b, i) {
        assert i > 0;
        assert a[1..][..i - 1] == a[..i][1..] && b[1..][..i - 1] == b[..i][1..];
        assert DiffersAt(a[1..], b[1..], i - 1);
      }
    } else if Before(a, b) {
      assert DiffersAt(a, b, 0);
    } else if i :| DiffersAt(a, b, i) {
      SameFirst(a, b, i);
    }
  }

  lemma SameFirst(a: QString, b: QString, i: int)
    requires DiffersAt(a, b, i)
    ensures i == 0 || (a != [] && b != [] && a[0] == b[0])
  {
    if i > 0 {
      assert a[..i][0] == b[..i][0];
    }
  }

  predicate DiffersAt(a: QString, b: QString, i: int) {
    0 <= i <= |a| && i < |b| && a[..i] == b[..i] && (i == |a| || a[i] < b[i])
  }

  lemma {:induction false} Trichotomy(a: QString, b: QString)
    ensures a == b || Before(a, b) || Before(b, a)
    ensures !(Before(a, b) && Before(b, a)) && !Before(a, a)
  {
    if a != [] && b != [] && a[0] == b[0] {
      Trichotomy(a[1..], b[1..]);
      assert a == [a[0]] + a[1..] && b == [b[0]] + b[1..];
    }
    if a != [] {
      Irreflexive(a);
    }
  }

  lemma {:induction false} Irreflexive(a: QString)
    ensures !Before(a, a)
  {
    if a != [] {
      Irreflexive(a[1..]);
    }
  }

  lemma {:induction false} Transitive(a: QString, b: QString, c: QString)
    requires Before(a, b) && Before(b, c)
    ensures Before(a, c)
  {
    if a != [] && a[0] == b[0] == c[0] {
      Transitive(a[1..], b[1..], c[1..]);
    }
  }

  lemma {:induction false} LeastNameExists(s: set<QString>) returns (m: QString)
    requires s != {}
    ensures m in s && forall x :: x in s && x != m ==> Before(m, x)
    decreases |s|
  {
    var y :| y in s;
    m := y;
    if s != {y} {
      assert forall x :: x in s ==> x == y || x in s - {y};
      m := LeastNameExists(s - {y});
      Trichotomy(m, y);
      if Before(y, m) {
        forall x | x in s && x != y ensures Before(y, x) {
          if x != m { Transitive(y, m, x); }
        }
        m := y;
      }
    }
  }

  predicate IsLeastName(m: QString, s: set<QString>) { m in s && forall x :: x in s && x != m ==> Before(m, x) }

  lemma OneLeastName(s: set<QString>)
    requires s != {}
    ensures exists m :: IsLeastName(m, s)
    ensures forall m, n :: IsLeastName(m, s) && IsLeastName(n, s) ==> m == n
  {
    var m := LeastNameExists(s);
    assert IsLeastName(m, s);
    forall m, n | IsLeastName(m, s) && IsLeastName(n, s) ensures m == n {
      Trichotomy(m, n);
    }
  }

  function LeastName(s: set<QString>): (m: QString)
    requires s != {}
    ensures IsLeastName(m, s)
  {
    OneLeastName(s);
    var m :| IsLeastName(m, s);
    m
  }

  // ----- traversal of ordered containers -----

  function Names(s: set<QString>): (r: seq<QString>)
    ensures |r| == |s| && forall x :: x in r <==> x in s
    decreases |s|
  {
    if s == {} then [] else var m := LeastName(s); [m] + Names(s - {m})
  }

  lemma {:induction false} NamesAscend(s: set<QString>)
    ensures forall i, j :: 0 <= i < j < |Names(s)| ==> Before(Names(s)[i], Names(s)[j])
    decreases |s|
  {
    if s != {} {
      var m := LeastName(s);
      NamesAscend(s - {m});
      var r := Names(s - {m});
      assert forall j :: 0 <= j < |r| ==> r[j] in r;
    }
  }

  function Scores(s: set<int>): (r: seq<int>)
    ensures forall x :: x in r <==> x in s
    decreases |s|
  {
    if exists y :: y in s then var m := Least(s); [m] + Scores(s - {m}) else []
  }

  lemma {:induction false} ScoresAscend(s: set<int>)
    ensures forall i, j :: 0 <= i < j < |Scores(s)| ==> Scores(s)[i] < Scores(s)[j]
    decreases |s|
  {
    if exists y :: y in s {
      var m := Least(s);
      ScoresAscend(s - {m});
      var r := Scores(s - {m});
      assert forall j :: 0 <= j < |r| ==> r[j] in r;
    }
  }

  // ----- the order of pairs -----

  type Pair = (QString, int)

  predicate PairBefore(a: Pair, b: Pair) { a.1 < b.1 || (a.1 == b.1 && Before(a.0, b.0)) }

  function WithScore(names: seq<QString>, score: int): (r: seq<Pair>)
    ensures |r| == |names| && forall i :: 0 <= i < |r| ==> r[i] == (names[i], score)
  {
    seq(|names|, i requires 0 <= i < |names| => (names[i], score))
  }

  /** The pairs with the given scores, one score after the other. */
  function Listed(scores: map<int, set<QString>>, keys: seq<int>): seq<Pair>
    requires forall k :: k in keys ==> k in scores
  {
    if keys == [] then []
    else
      var last := keys[|keys| - 1];
      Listed(scores, keys[..|keys| - 1]) + WithScore(Names(scores[last]), last)
  }

  function Ordered(scores: map<int, set<QString>>): seq<Pair> { Listed(scores, Scores(scores.Keys)) }

  predicate AscendingPairs(s: seq<Pair>) { forall i, j :: 0 <= i < j < |s| ==> PairBefore(s[i], s[j]) }

  /** The list is in ascending order, and holds exactly the pairs of the index. */
  lemma {:induction false} ListedAscends(scores: map<int, set<QString>>, keys: seq<int>)
    requires (forall k :: k in keys ==> k in scores) && forall i, j :: 0 <= i < j < |keys| ==> keys[i] < keys[j]
    ensures AscendingPairs(Listed(scores, keys))
    ensures forall p :: p in Listed(scores, keys) <==> p.1 in keys && p.0 in scores[p.1]
    decreases |keys|
  {
    if keys != [] {
      var last, rest := keys[|keys| - 1], keys[..|keys| - 1];
      ListedAscends(scores, rest);
      NamesAscend(scores[last]);
      var a, names := Listed(scores, rest), Names(scores[last]);
      var b := WithScore(names, last);
      assert keys == rest + [last];
      forall i, j | 0 <= i < j < |a + b| ensures PairBefore((a + b)[i], (a + b)[j]) {
        if i < |a| <= j {
          assert a[i] in a;
        }
      }
      forall p: Pair | p.1 == last && p.0 in scores[last] ensures p in b {
        var i :| 0 <= i < |names| && names[i] == p.0;
        assert b[i] == p;
      }
    }
  }

  lemma OrderedIs(scores: map<int, set<QString>>)
    ensures AscendingPairs(Ordered(scores))
    ensures forall p :: p in Ordered(scores) <==> p.1 in scores && p.0 in scores[p.1]
  {
    ScoresAscend(scores.Keys);
    ListedAscends(scores, Scores(scores.Keys));
  }

  lemma AscendingDistinct(s: seq<Pair>, i: nat, j: nat)
    requires AscendingPairs(s) && i < |s| && j < |s| && s[i] == s[j]
    ensures i == j
  {
    Irreflexive(s[i].0);
  }

  // ----- both indexes -----

  ghost predicate Agree(members: map<QString, int>, scores: map<int, set<QString>>) {
    && (forall n :: n in members ==> members[n] in scores && n in scores[members[n]])
    && (forall k, n :: k in scores && n in scores[k] ==> n in members && members[n] == k)
  }

  predicate DistinctNames(s: seq<Pair>) { forall i, j :: 0 <= i < j < |s| ==> s[i].0 != s[j].0 }

  function NameSet(s: seq<Pair>): set<QString> { set i | 0 <= i < |s| :: s[i].0 }

  lemma {:induction false} NameCount(s: seq<Pair>)
    requires DistinctNames(s)
    ensures |NameSet(s)| == |s|
  {
    if s != [] {
      var t, last := s[..|s| - 1], s[|s| - 1];
      NameCount(t);
      NameSetSplit(s);
      assert last.0 !in NameSet(t);
    }
  }

  lemma NameSetSplit(s: seq<Pair>)
    requires s != []
    ensures NameSet(s) == NameSet(s[..|s| - 1]) + {s[|s| - 1].0}
  {
    var t, last := s[..|s| - 1], s[|s| - 1];
    forall n | n in NameSet(t) ensures n in NameSet(s) {
      var i :| 0 <= i < |t| && t[i].0 == n;
      assert s[i].0 == n;
    }
    forall n | n in NameSet(s) ensures n in NameSet(t) + {last.0} {
      var i :| 0 <= i < |s| && s[i].0 == n;
      assert i < |t| ==> t[i].0 == n;
    }
  }

  /** Both indexes hold the same pairs: the list has one for every member, with its score. */
  lemma OrderedCount(members: map<QString, int>, scores: map<int, set<QString>>)
    requires Agree(members, scores)
    ensures |Ordered(scores)| == |members| && DistinctNames(Ordered(scores))
    ensures forall n, sc :: (n, sc) in Ordered(scores) <==> n in members && members[n] == sc
  {
    hide Ordered;
    OrderedIs(scores);
    var s := Ordered(scores);
    forall n, sc ensures (n, sc) in s <==> n in members && members[n] == sc {
      assert (n, sc).0 == n;
    }
    forall i, j | 0 <= i < j < |s| ensures s[i].0 != s[j].0 {
      assert (s[i].0, s[i].1) in s && (s[j].0, s[j].1) in s;
      if s[i].0 == s[j].0 {
        AscendingDistinct(s, i, j);
      }
    }
    NameCount(s);
    forall n | n in members ensures n in NameSet(s) {
      assert (n, members[n]) in s;
      var i :| 0 <= i < |s| && s[i] == (n, members[n]);
      assert s[i].0 == n;
    }
    forall n | n in NameSet(s) ensures n in members {
      var i :| 0 <= i < |s| && s[i].0 == n;
      assert (s[i].0, s[i].1) in s;
    }
    assert NameSet(s) == members.Keys;
  }

  class QSortedSet {
    var members: map<QString, int>
    var scores: map<int, set<QString>>

    ghost predicate Valid()
      reads this
    {
      Agree(members, scores)
    }

    constructor ()
      ensures Valid() && members == map[]
    {
      members, scores := map[], map[];
    }

    /** The pairs in ascending order. */
    ghost function Pairs(): seq<Pair>
      reads this
    {
      Ordered(scores)
    }

    /** scores_[score].insert(member) */
    method Insert(member: QString, score: int)
      modifies this`scores
      ensures scores == old(scores)[score := (if score in old(scores) then old(scores)[score] else {}) + {member}]
    {
      if score !in scores {
        scores := scores[score := {}];
      }
      scores := scores[score := scores[score] + {member}];
    }

    method AddMember(member: QString, score: int)
      requires Valid() && member !in members
      modifies this
      ensures Valid() && members == old(members)[member := score]
    {
      members := members[member := score];
      Insert(member, score);
    }

    /** UpdateMember: the old pair goes from both indexes, the new one comes in. */
    method UpdateMember(member: QString, delta: int) returns (newScore: int)
      requires Valid() && member in members
      modifies this
      ensures Valid() && newScore == old(members[member]) + delta && members == old(members)[member := newScore]
    {
      var oldScore := members[member];
      newScore := oldScore + delta;
      members := members[member := newScore];
      assert oldScore in scores && member in scores[oldScore];
      scores := scores[oldScore := scores[oldScore] - {member}];
      assert newScore !in scores || member !in scores[newScore];
      Insert(member, newScore);
    }

    method DelMember(member: QString) returns (ok: bool)
      requires Valid()
      modifies this
      ensures Valid() && ok == (member in old(members)) && members == old(members) - {member}
    {
      if member !in members {
        assert members - {member} == members;
        return false;
      }
      var score := members[member];
      members := members - {member};
      assert score in scores && member in scores[score];
      scores := scores[score := scores[score] - {member}];
      return true;
    }

    /** Rank: where the member stands in the order, which is how many members come before it. */
    method Rank(member: QString) returns (rank: int)
      requires Valid()
      ensures rank == if member !in members then -1 else |MembersBefore(members, member)|
    {
      hide Ordered, Listed, Names, Scores, Before, WithScore, MembersBefore;
      if member !in members { return -1; }
      var score, keys := members[member], Scores(scores.Keys);
      assert score in keys && member in scores[score];
      rank := 0;
      var i := 0;
      ListedNone(scores, keys);
      while i < |keys|
        invariant i <= |keys| && rank == |Listed(scores, keys[..i])|
        invariant score in keys[i..]
        decreases |keys| - i
      {
        if keys[i] == score {
          var names, k := Names(scores[score]), 0;
          while k < |names|
            invariant k <= |names| && member in names[k..] && rank == |Listed(scores, keys[..i])| + k
            decreases |names| - k
          {
            if names[k] == member {
              StandsAt(scores, i, k);
              RankCounts(members, scores, rank);
              return rank;
            }
            k, rank := k + 1, rank + 1;
          }
          assert false;
        }
        ListedStep(scores, keys, i);
        rank := rank + |scores[keys[i]]|;
        i := i + 1;
      }
      assert false;
    }

    method RevRank(member: QString) returns (rank: int)
      requires Valid()
      ensures rank == if member !in members then -1 else |members| - 1 - |MembersBefore(members, member)|
    {
      rank := Rank(member);
      if rank != -1 {
        rank := |members| - (rank + 1);
      }
    }

    /** GetMemberByRank: a rank too great gives the last member; an empty set gives an empty name. */
    method GetMemberByRank(rank0: nat) returns (pair: Pair)
      requires Valid()
      ensures pair == AtRank(Pairs(), rank0)
    {
      hide Ordered, Listed, Names, Scores, Before, WithScore, Agree;
      OrderedCount(members, scores);
      var rank := if rank0 < |members| then rank0 else if |members| == 0 then MAX_SIZE else |members| - 1;
      var keys, iterRank, i := Scores(scores.Keys), 0, 0;
      ListedNone(scores, keys);
      ListedAll(scores);
      while i < |keys|
        invariant i <= |keys| && iterRank == |Listed(scores, keys[..i])| <= rank
        decreases |keys| - i
      {
        if iterRank + |scores[keys[i]]| > rank {
          var names, k := Names(scores[keys[i]]), 0;
          while iterRank != rank
            invariant k <= rank - |Listed(scores, keys[..i])| && iterRank == |Listed(scores, keys[..i])| + k
            decreases rank - iterRank
          {
            iterRank, k := iterRank + 1, k + 1;
          }
          StandsAt(scores, i, k);
          return (names[k], keys[i]);
        }
        ListedStep(scores, keys, i);
        iterRank := iterRank + |scores[keys[i]]|;
        i := i + 1;
      }
      return ([], 0);
    }

    /** RangeByRank: the pairs from one rank to another; negative ranks count from the end. */
    method RangeByRank(start: int, end: int) returns (res: seq<Pair>)
      requires Valid()
      ensures res == AtRanks(Pairs(), Absolute(start, |Pairs()|), Absolute(end, |Pairs()|))
    {
      hide Ordered, Agree, AtRanks;
      OrderedCount(members, scores);
      ghost var pairs := Pairs();
      AdjustedSlice(pairs, start, end);
      var (lo, hi) := AdjustIndex(start, end, |members|);
      res := [];
      if lo > hi { return; }
      var rank := lo;
      while rank <= hi
        invariant lo <= rank <= hi + 1 && res == pairs[lo..rank]
      {
        var pair := GetMemberByRank(rank);
        res, rank := res + [pair], rank + 1;
      }
    }

    /** RangeByScore: the pairs with scores from min to max. */
    method RangeByScore(min: int, max: int) returns (res: seq<Pair>)
      requires Valid()
      ensures res == WithScores(Pairs(), min, max)
    {
      hide Ordered, Listed, Names, Scores, Before, WithScore, Agree, WithScores;
      var keys, i := Scores(scores.Keys), 0;
      ScoresAscend(scores.Keys);
      ListedNone(scores, keys);
      ListedAll(scores);
      res := [];
      if min > max {
        NoneBetween(Pairs(), min, max);
        return;
      }
      while i < |keys| && keys[i] < min
        invariant i <= |keys| && WithScores(Listed(scores, keys[..i]), min, max) == []
      {
        WithScoresStep(scores, i, min, max);
        i := i + 1;
      }
      while i < |keys| && keys[i] <= max
        invariant i <= |keys| && WithScores(Listed(scores, keys[..i]), min, max) == res
        invariant i < |keys| ==> min <= keys[i]
      {
        WithScoresStep(scores, i, min, max);
        var names, k := Names(scores[keys[i]]), 0;
        ghost var before := res;
        while k < |names|
          invariant k <= |names| && res == before + WithScore(names, keys[i])[..k]
        {
          res, k := res + [(names[k], keys[i])], k + 1;
        }
        i := i + 1;
      }
      WithScoresRest(scores, i, min, max);
    }
  }

  /** The members that come before one of them, in the order of scores and then of names. */
  function MembersBefore(members: map<QString, int>, name: QString): set<QString>
    requires name in members
  {
    set n | n in members && PairBefore((n, members[n]), (name, members[name]))
  }

  /** Rank and GetMemberByRank undo each other: the rank of a member is the number of members before it, and at that
      rank of the order it stands. */
  lemma RankInverse(members: map<QString, int>, scores: map<int, set<QString>>, name: QString, rank: nat)
    requires Agree(members, scores) && name in members
    ensures AtRank(Ordered(scores), |MembersBefore(members, name)|) == (name, members[name])
    ensures rank < |members| ==> var (n, score) := AtRank(Ordered(scores), rank);
                                 n in members && members[n] == score && |MembersBefore(members, n)| == rank
  {
    hide Ordered, Agree, MembersBefore;
    OrderedCount(members, scores);
    var s := Ordered(scores);
    InOrder(members, scores, (name, members[name]));
    var i :| 0 <= i < |s| && s[i] == (name, members[name]);
    RankCounts(members, scores, i);
    if rank < |members| {
      InOrder(members, scores, s[rank]);
      RankCounts(members, scores, rank);
    }
  }

  /** The member that stands at a rank has that many members before it. */
  lemma RankCounts(members: map<QString, int>, scores: map<int, set<QString>>, rank: nat)
    requires Agree(members, scores) && rank < |Ordered(scores)|
    ensures Ordered(scores)[rank].0 in members
    ensures |MembersBefore(members, Ordered(scores)[rank].0)| == rank
  {
    hide Ordered, Agree, PairBefore, NameSet;
    OrderedCount(members, scores);
    OrderedIs(scores);
    var s := Ordered(scores);
    InOrder(members, scores, s[rank]);
    var before, t := MembersBefore(members, s[rank].0), s[..rank];
    forall n | n in NameSet(t) ensures n in before {
      var i := NameAt(t, n);
      InOrder(members, scores, s[i]);
      Ascends(s, i, rank);
    }
    forall n | n in before ensures n in NameSet(t) {
      InOrder(members, scores, (n, members[n]));
      var i :| 0 <= i < |s| && s[i] == (n, members[n]);
      OnlyAscends(s, i, rank);
      HasName(t, i);
    }
    NameCount(t);
    assert NameSet(t) == before;
  }

  lemma NameAt(s: seq<Pair>, n: QString) returns (i: nat)
    requires n in NameSet(s)
    ensures i < |s| && s[i].0 == n
  {
    i :| 0 <= i < |s| && s[i].0 == n;
  }

  lemma HasName(s: seq<Pair>, i: nat)
    requires i < |s|
    ensures s[i].0 in NameSet(s)
  {
  }

  lemma InOrder(members: map<QString, int>, scores: map<int, set<QString>>, p: Pair)
    requires Agree(members, scores)
    ensures p in Ordered(scores) <==> p.0 in members && members[p.0] == p.1
  {
    hide Ordered;
    OrderedIs(scores);
    var (n, k) := p;
    assert p in Ordered(scores) <==> k in scores && n in scores[k];
    if k in scores && n in scores[k] {
      assert n in members && members[n] == k;
    }
  }

  lemma Ascends(s: seq<Pair>, i: nat, j: nat)
    requires AscendingPairs(s) && i < j < |s|
    ensures PairBefore(s[i], s[j])
  {
  }

  lemma OnlyAscends(s: seq<Pair>, i: nat, j: nat)
    requires AscendingPairs(s) && i < |s| && j < |s| && PairBefore(s[i], s[j])
    ensures i < j
  {
    Trichotomy(s[i].0, s[j].0);
  }

  /** In an empty set, size() - 1 wraps around to the greatest size_t. */
  const MAX_SIZE: nat := 0xffff_ffff_ffff_ffff

  /** The pair at a rank, or the last pair when there is none so high. */
  function AtRank(s: seq<Pair>, rank: nat): Pair {
    if s == [] then ([], 0) else if rank >= |s| then s[|s| - 1] else s[rank]
  }

  /** A negative rank counts from the end. */
  function Absolute(rank: int, size: nat): int { if rank < 0 then rank + size else rank }

  /** The pairs that stand at the ranks from lo to hi. */
  function AtRanks(s: seq<Pair>, lo: int, hi: int): seq<Pair> {
    if s == [] then []
    else
      var rank := |s| - 1;
      AtRanks(s[..rank], lo, hi) + (if lo <= rank <= hi then [s[rank]] else [])
  }

  /** The pairs with scores from min to max. */
  function WithScores(s: seq<Pair>, min: int, max: int): seq<Pair> {
    if s == [] then []
    else
      var last := s[|s| - 1];
      WithScores(s[..|s| - 1], min, max) + (if min <= last.1 <= max then [last] else [])
  }

  /** The slice from lo to hi, both cut to the ranks of s. */
  function Cut(s: seq<Pair>, lo: int, hi: int): seq<Pair> {
    var l, h := if lo < 0 then 0 else lo, if hi >= |s| then |s| else hi + 1;
    if l >= h then [] else s[l..h]
  }

  lemma CutLast(s: seq<Pair>, lo: int, hi: int)
    requires s != []
    ensures var rank := |s| - 1;
            Cut(s, lo, hi) == Cut(s[..rank], lo, hi) + if lo <= rank <= hi then [s[rank]] else []
  {
    var t, rank := s[..|s| - 1], |s| - 1;
    var l := if lo < 0 then 0 else lo;
    if l <= rank <= hi {
      assert s[l..|s|] == s[l..rank] + [s[rank]];
      assert s[l..rank] == t[l..rank];
    } else if l <= hi < rank {
      assert s[l..hi + 1] == t[l..hi + 1];
    }
  }

  lemma {:induction false} RanksCut(s: seq<Pair>, lo: int, hi: int)
    ensures AtRanks(s, lo, hi) == Cut(s, lo, hi)
  {
    hide Cut;
    if s == [] {
      CutNone(lo, hi);
    } else {
      RanksCut(s[..|s| - 1], lo, hi);
      CutLast(s, lo, hi);
    }
  }

  lemma CutNone(lo: int, hi: int)
    ensures Cut([], lo, hi) == []
  {
  }

  lemma CutAdjusted(s: seq<Pair>, start: int, end: int)
    requires s != []
    ensures var (lo, hi) := AdjustIndex(start, end, |s|);
            && (lo > hi || hi < |s|)
            && Cut(s, Absolute(start, |s|), Absolute(end, |s|)) == if lo > hi then [] else s[lo..hi + 1]
  {
  }

  lemma AdjustNone(start: int, end: int)
    ensures AdjustIndex(start, end, 0) == (1, 0) && Cut([], Absolute(start, 0), Absolute(end, 0)) == []
  {
  }

  /** The ranks that AdjustIndex gives bound the slice. */
  lemma AdjustedSlice(s: seq<Pair>, start: int, end: int)
    ensures var (lo, hi) := AdjustIndex(start, end, |s|);
            AtRanks(s, Absolute(start, |s|), Absolute(end, |s|)) == if lo > hi then [] else s[lo..hi + 1]
  {
    hide AtRanks, AdjustIndex, Absolute, Cut;
    RanksCut(s, Absolute(start, |s|), Absolute(end, |s|));
    if s == [] { AdjustNone(start, end); } else { CutAdjusted(s, start, end); }
  }

  /** AdjustIndex. */
  function AdjustIndex(start: int, end: int, size: nat): (r: (nat, int)) {
    if size == 0 then (1, 0)
    else
      var s := if start < 0 then start + size else start;
      var e := if end < 0 then end + size else end;
      (if s < 0 then 0 else s, if e >= size then size - 1 else e)
  }

  /** The filter keeps the pairs in the range and no others, in their order. */
  lemma {:induction false} WithScoresIs(s: seq<Pair>, min: int, max: int)
    requires AscendingPairs(s)
    ensures AscendingPairs(WithScores(s, min, max))
    ensures forall p :: p in WithScores(s, min, max) <==> p in s && min <= p.1 <= max
  {
    if s != [] {
      var t, last := s[..|s| - 1], s[|s| - 1];
      WithScoresIs(t, min, max);
      var r := WithScores(t, min, max);
      assert s == t + [last];
      forall i | 0 <= i < |r| ensures PairBefore(r[i], last) {
        assert r[i] in t;
      }
    }
  }

  lemma {:induction false} WithScoresConcat(s: seq<Pair>, t: seq<Pair>, min: int, max: int)
    ensures WithScores(s + t, min, max) == WithScores(s, min, max) + WithScores(t, min, max)
  {
    if t == [] {
      assert s + t == s;
    } else {
      WithScoresConcat(s, t[..|t| - 1], min, max);
      assert (s + t)[..|s + t| - 1] == s + t[..|t| - 1];
    }
  }

  lemma LastWithScores(s: seq<Pair>, min: int, max: int)
    requires s != []
    ensures var last := s[|s| - 1];
            WithScores(s, min, max)
            == WithScores(s[..|s| - 1], min, max) + if min <= last.1 <= max then [last] else []
  {
  }

  /** Pairs that all have one score are all chosen, or none is. */
  lemma {:induction false} OneScore(s: seq<Pair>, score: int, min: int, max: int)
    requires forall p :: p in s ==> p.1 == score
    ensures WithScores(s, min, max) == if min <= score <= max then s else []
  {
    if s != [] {
      hide WithScores;
      var t, last := s[..|s| - 1], s[|s| - 1];
      forall p | p in t ensures p.1 == score { assert p in s; }
      assert last in s;
      OneScore(t, score, min, max);
      LastWithScores(s, min, max);
      assert s == t + [last];
    }
  }

  lemma {:induction false} NoneBetween(s: seq<Pair>, min: int, max: int)
    requires min > max
    ensures WithScores(s, min, max) == []
  {
    if s != [] {
      NoneBetween(s[..|s| - 1], min, max);
    }
  }

  /** The scan of one more score adds its pairs when the score is in the range. */
  lemma WithScoresStep(scores: map<int, set<QString>>, i: nat, min: int, max: int)
    requires i < |Scores(scores.Keys)|
    ensures var keys := Scores(scores.Keys);
            WithScores(Listed(scores, keys[..i + 1]), min, max)
            == WithScores(Listed(scores, keys[..i]), min, max)
               + if min <= keys[i] <= max then WithScore(Names(scores[keys[i]]), keys[i]) else []
  {
    hide Listed, WithScores, Names, Scores, WithScore;
    var keys := Scores(scores.Keys);
    var more := WithScore(Names(scores[keys[i]]), keys[i]);
    ListedStep(scores, keys, i);
    WithScoresConcat(Listed(scores, keys[..i]), more, min, max);
    OneScore(more, keys[i], min, max);
  }

  /** No later score is in the range. */
  lemma {:induction false} WithScoresRest(scores: map<int, set<QString>>, i: nat, min: int, max: int)
    requires i <= |Scores(scores.Keys)| && (i < |Scores(scores.Keys)| ==> max < Scores(scores.Keys)[i])
    ensures WithScores(Ordered(scores), min, max) == WithScores(Listed(scores, Scores(scores.Keys)[..i]), min, max)
    decreases |Scores(scores.Keys)| - i
  {
    hide Listed, WithScores, Names, Scores, WithScore;
    if i == |Scores(scores.Keys)| {
      ListedAll(scores);
    } else {
      ScoresAscend(scores.Keys);
      WithScoresStep(scores, i, min, max);
      WithScoresRest(scores, i + 1, min, max);
    }
  }

  lemma ListedNone(scores: map<int, set<QString>>, keys: seq<int>)
    requires forall k :: k in keys ==> k in scores
    ensures Listed(scores, keys[..0]) == [] && forall min, max :: WithScores(Listed(scores, keys[..0]), min, max) == []
  {
  }

  lemma ListedAll(scores: map<int, set<QString>>)
    ensures var keys := Scores(scores.Keys); Listed(scores, keys[..|keys|]) == Ordered(scores)
  {
    var keys := Scores(scores.Keys);
    assert keys[..|keys|] == keys;
  }

  /** Where the name with index k under the score with index i stands in the order. */
  lemma StandsAt(scores: map<int, set<QString>>, i: nat, k: nat)
    requires i < |Scores(scores.Keys)| && k < |scores[Scores(scores.Keys)[i]]|
    ensures var keys := Scores(scores.Keys);
            var rank := |Listed(scores, keys[..i])| + k;
            rank < |Ordered(scores)| && Ordered(scores)[rank] == (Names(scores[keys[i]])[k], keys[i])
  {
    hide Listed, Names, Scores, WithScore;
    var keys := Scores(scores.Keys);
    var p, more := Listed(scores, keys[..i]), WithScore(Names(scores[keys[i]]), keys[i]);
    ListedStep(scores, keys, i);
    ListedPrefix(scores, keys, i + 1);
    assert (p + more)[|p| + k] == more[k];
  }

  lemma ListedStep(scores: map<int, set<QString>>, keys: seq<int>, i: nat)
    requires i < |keys| && forall k :: k in keys ==> k in scores
    ensures Listed(scores, keys[..i + 1]) == Listed(scores, keys[..i]) + WithScore(Names(scores[keys[i]]), keys[i])
  {
    assert keys[..i + 1][..i] == keys[..i];
  }

  lemma {:induction false} ListedPrefix(scores: map<int, set<QString>>, keys: seq<int>, i: nat)
    requires i <= |keys| && forall k :: k in keys ==> k in scores
    ensures Listed(scores, keys[..i]) <= Listed(scores, keys)
    decreases |keys| - i
  {
    if i < |keys| {
      ListedStep(scores, keys, i);
      ListedPrefix(scores, keys, i + 1);
    } else {
      assert keys[..i] == keys;
    }
  }
}
