/** What the shell reads off a request's path (desktop/src/main/main.ts:122-158): whether it
    mentions a word, and its fourth segment. */
module Paths {
  import opened Wrappers
  import opened LocalStore

  ghost predicate Mentions(s: string, part: string) {
    exists before, after :: s == before + part + after
  }

  lemma IncludesIff(s: string, part: string)
    ensures Includes(s, part) <==> Mentions(s, part)
  {
    if Includes(s, part) {
      var i :| 0 <= i <= |s| && part <= s[i..];
      assert s == s[..i] + part + s[i + |part|..];
    }
    if Mentions(s, part) {
      var before, after :| s == before + part + after;
      assert s[|before|..] == part + after;
    }
  }

  // ---- segments ----------------------------------------------------------------------

  lemma {:induction false} SplitWhole(s: string, separator: char)
    requires separator !in s
    ensures Split(s, separator) == [s]
  {
    if s != "" {
      assert s == [s[0]] + s[1..];
      SplitWhole(s[1..], separator);
    }
  }

  lemma {:induction false} SplitAtFirst(head: string, separator: char, tail: string)
    requires separator !in head
    ensures Split(head + [separator] + tail, separator) == [head] + Split(tail, separator)
  {
    var s := head + [separator] + tail;
    if head == "" {
      assert s[1..] == tail;
    } else {
      assert s[1..] == head[1..] + [separator] + tail && head == [head[0]] + head[1..];
      SplitAtFirst(head[1..], separator, tail);
    }
  }

  lemma {:induction false} FirstSegment(s: string, separator: char) returns (head: string, tail: string)
    requires separator in s
    ensures separator !in head && s == head + [separator] + tail
  {
    if s[0] == separator {
      head, tail := "", s[1..];
    } else {
      assert s == [s[0]] + s[1..];
      head, tail := FirstSegment(s[1..], separator);
      head := [s[0]] + head;
    }
  }

  /** The path starts with three segments and then this one. */
  predicate Segments(path: string, a: string, b: string, c: string, fourth: string, rest: string) {
    && '/' !in a && '/' !in b && '/' !in c && '/' !in fourth
    && (rest == "" || rest[0] == '/')
    && path == a + "/" + b + "/" + c + "/" + fourth + rest
  }

  ghost predicate IsFourth(path: string, fourth: string) {
    exists a, b, c, rest :: Segments(path, a, b, c, fourth, rest)
  }

  lemma FourthIsEntity(path: string, a: string, b: string, c: string, fourth: string, rest: string)
    requires Segments(path, a, b, c, fourth, rest)
    ensures EntityOf(path) == fourth
  {
    var tail := b + "/" + c + "/" + fourth + rest;
    var last := fourth + rest;
    assert path == a + ['/'] + tail;
    assert tail == b + ['/'] + (c + ['/'] + last);
    SplitAtFirst(a, '/', tail);
    SplitAtFirst(b, '/', c + ['/'] + last);
    SplitAtFirst(c, '/', last);
    if rest == "" {
      assert last == fourth;
      SplitWhole(fourth, '/');
    } else {
      assert last == fourth + ['/'] + rest[1..];
      SplitAtFirst(fourth, '/', rest[1..]);
    }
    assert Split(path, '/')[3] == Split(last, '/')[0];
  }

  lemma FewSegments(path: string)
    requires |Split(path, '/')| > 3
    ensures IsFourth(path, Split(path, '/')[3])
  {
    var a, tail, b, tail2, c, last := CutThree(path);
    var fourth, rest := last, "";
    if '/' in last {
      var tail4;
      fourth, tail4 := FirstSegment(last, '/');
      rest := ['/'] + tail4;
    }
    assert Segments(path, a, b, c, fourth, rest);
    FourthIsEntity(path, a, b, c, fourth, rest);
  }

  lemma CutThree(path: string) returns (a: string, tail: string, b: string, tail2: string, c: string, last: string)
    requires |Split(path, '/')| > 3
    ensures '/' !in a && '/' !in b && '/' !in c
    ensures path == a + ['/'] + tail && tail == b + ['/'] + tail2 && tail2 == c + ['/'] + last
  {
    a, tail := CutOne(path);
    b, tail2 := CutOne(tail);
    c, last := CutOne(tail2);
  }

  lemma CutOne(path: string) returns (head: string, tail: string)
    requires |Split(path, '/')| > 1
    ensures '/' !in head && path == head + ['/'] + tail && |Split(tail, '/')| == |Split(path, '/')| - 1
  {
    if '/' !in path { SplitWhole(path, '/'); }
    head, tail := FirstSegment(path, '/');
    SplitAtFirst(head, '/', tail);
  }

  /** The entity of an operation is the fourth segment of its path, or "unknown" if the path
      has none. */
  lemma EntityIff(path: string, entity: string)
    ensures entity == EntityOf(path) <==>
            IsFourth(path, entity) || (entity == "unknown" && forall fourth :: !IsFourth(path, fourth))
  {
    forall fourth | IsFourth(path, fourth)
      ensures EntityOf(path) == fourth && |Split(path, '/')| > 3
    {
      var a, b, c, rest :| Segments(path, a, b, c, fourth, rest);
      FourthIsEntity(path, a, b, c, fourth, rest);
      ThreeCuts(path, a, b, c, fourth + rest);
    }
    if |Split(path, '/')| > 3 { FewSegments(path); }
  }

  lemma ThreeCuts(path: string, a: string, b: string, c: string, last: string)
    requires '/' !in a && '/' !in b && '/' !in c && path == a + "/" + b + "/" + c + "/" + last
    ensures |Split(path, '/')| > 3
  {
    var tail := b + "/" + c + "/" + last;
    assert path == a + ['/'] + tail && tail == b + ['/'] + (c + ['/'] + last);
    SplitAtFirst(a, '/', tail);
    SplitAtFirst(b, '/', c + ['/'] + last);
    SplitAtFirst(c, '/', last);
  }
}
