/**
 The text form in which SessionMemberCache stores a member list:
 ids joined with ',' and one reserved value for the empty list.
 */
module MemberList {
  const EMPTY_SENTINEL: string := "__EMPTY__"

  /** Index of the first `c` in `s`, or |s| when there is none (std::string::npos). */
  function IndexOf(s: string, c: char): (i: nat)
    ensures i <= |s|
    ensures forall k :: 0 <= k < i ==> s[k] != c
    ensures i < |s| ==> s[i] == c
  {
    if s == [] || s[0] == c then 0 else 1 + IndexOf(s[1..], c)
  }

  function Join(ids: seq<string>): string
  {
    if ids == [] then ""
    else if |ids| == 1 then ids[0]
    else ids[0] + "," + Join(ids[1..])
  }

  function Split(s: string): seq<string>
    decreases |s|
  {
    var i := IndexOf(s, ',');
    if i < |s| then [s[..i]] + Split(s[i + 1..])
    else if s == "" then [] else [s]
  }

  /** What the cache writes for a loaded list, and what it returns for a stored text. */
  function Encode(ids: seq<string>): string {
    if ids == [] then EMPTY_SENTINEL else Join(ids)
  }

  function Decode(text: string): seq<string> {
    if text == EMPTY_SENTINEL then [] else Split(text)
  }

  predicate CommaFree(ids: seq<string>) {
    forall i :: 0 <= i < |ids| ==> ',' !in ids[i]
  }

  /** A list that split can produce: comma-free ids, the last one not empty. */
  predicate Splittable(ids: seq<string>) {
    CommaFree(ids) && (ids != [] ==> ids[|ids| - 1] != "")
  }

  /** A list that survives storage. */
  predicate Storable(ids: seq<string>) {
    Splittable(ids) && ids != [EMPTY_SENTINEL]
  }

  method JoinLoop(ids: seq<string>) returns (text: string)
    ensures text == Join(ids)
  {
    if ids == [] {
      return "";
    }
    text := "";
    for i := 0 to |ids|
      invariant text == Join(ids[..i])
    {
      if i != 0 {
        text := text + ",";
      }
      text := text + ids[i];
      ghost var done := ids[..i];
      assert ids[..i + 1] == done + [ids[i]];
      JoinSnoc(done, ids[i]);
    }
    assert ids[..|ids|] == ids;
  }

  method SplitLoop(s: string) returns (ids: seq<string>)
    ensures ids == Split(s)
  {
    ids := [];
    var start := 0;
    var end := start + IndexOf(s[start..], ',');
    assert s[start..] == s;
    ghost var all := Split(s);
    while end < |s|
      invariant 0 <= start <= end <= |s|
      invariant end == start + IndexOf(s[start..], ',')
      invariant ids + Split(s[start..]) == all
      decreases |s| - start
    {
      ghost var rest := Split(s[end + 1..]);
      SplitHead(s, start, end);
      Regroup(ids, s[start..end], rest);
      ids := ids + [s[start..end]];
      start := end + 1;
      end := start + IndexOf(s[start..], ',');
    }
    if start < |s| {
      ids := ids + [s[start..]];
    }
  }

  lemma Regroup(ids: seq<string>, id: string, rest: seq<string>)
    ensures ids + ([id] + rest) == ids + [id] + rest
  {
  }

  lemma SplitHead(s: string, start: nat, end: nat)
    requires start <= end < |s| && end == start + IndexOf(s[start..], ',')
    ensures Split(s[start..]) == [s[start..end]] + Split(s[end + 1..])
  {
    assert s[start..][..end - start] == s[start..end];
    assert s[start..][end - start + 1..] == s[end + 1..];
  }

  lemma {:induction false} JoinSnoc(ids: seq<string>, id: string)
    ensures Join(ids + [id]) == if ids == [] then id else Join(ids) + "," + id
  {
    if |ids| > 1 {
      JoinSnoc(ids[1..], id);
      assert (ids + [id])[1..] == ids[1..] + [id];
    } else if |ids| == 1 {
      assert (ids + [id])[1..] == [id];
    }
  }

  lemma {:induction false} IndexOfConcat(s: string, t: string, c: char)
    requires c !in s
    ensures IndexOf(s + [c] + t, c) == |s|
  {
    if s != "" {
      IndexOfConcat(s[1..], t, c);
      assert (s + [c] + t)[1..] == s[1..] + [c] + t;
    }
  }

  lemma {:induction false} SplitJoin(ids: seq<string>)
    requires Splittable(ids)
    ensures Split(Join(ids)) == ids
  {
    if |ids| == 1 {
      assert ids == [ids[0]];
    } else if |ids| > 1 {
      var rest := ids[1..];
      IndexOfConcat(ids[0], Join(rest), ',');
      assert Join(ids)[..|ids[0]|] == ids[0];
      assert Join(ids)[|ids[0]| + 1..] == Join(rest);
      SplitJoin(rest);
    }
  }

  predicate EndsInComma(s: string) {
    s != "" && s[|s| - 1] == ','
  }

  /** `s` without its last comma, if it ends in one. */
  function Trim(s: string): string {
    if EndsInComma(s) then s[..|s| - 1] else s
  }

  lemma TrimTail(head: string, tail: string)
    requires tail != ""
    ensures Trim(head + tail) == head + Trim(tail)
  {
    var s := head + tail;
    assert s[|s| - 1] == tail[|tail| - 1];
    assert s[..|s| - 1] == head + tail[..|tail| - 1];
  }

  lemma JoinCons(head: string, rest: seq<string>)
    requires rest != []
    ensures Join([head] + rest) == head + "," + Join(rest)
  {
    assert ([head] + rest)[1..] == rest;
  }

  /** Splitting and joining a text loses nothing but one final comma. */
  lemma {:induction false} JoinSplit(s: string)
    ensures Join(Split(s)) == Trim(s)
    ensures s != "" ==> Split(s) != []
    decreases |s|
  {
    var i := IndexOf(s, ',');
    if i < |s| {
      var head, t := s[..i], s[i + 1..];
      assert s == head + "," + t;
      if t == "" {
        assert Split(s) == [head] && Trim(s) == head;
      } else {
        JoinSplit(t);
        JoinCons(head, Split(t));
        TrimTail(head + ",", t);
      }
    }
  }

  lemma {:induction false} SplitIsCommaFree(s: string)
    ensures CommaFree(Split(s))
    decreases |s|
  {
    var i := IndexOf(s, ',');
    if i < |s| {
      SplitIsCommaFree(s[i + 1..]);
    }
  }

  lemma {:induction false} JoinEndsInComma(ids: seq<string>)
    requires ids != [] && ids[|ids| - 1] == ""
    ensures Join(ids) == "" || EndsInComma(Join(ids))
  {
    if |ids| > 1 {
      JoinEndsInComma(ids[1..]);
    }
  }

  /** Storage keeps a member list exactly when it is Storable; the empty list is. */
  lemma StoredListRoundTrip(ids: seq<string>)
    ensures Decode(Encode(ids)) == ids <==> Storable(ids)
  {
    if ids != [] {
      JoinSplit(Join(ids));
      SplitIsCommaFree(Join(ids));
      if ids[|ids| - 1] == "" {
        JoinEndsInComma(ids);
      }
      if Splittable(ids) {
        SplitJoin(ids);
        SplitJoin([EMPTY_SENTINEL]);
      }
    }
  }
}
