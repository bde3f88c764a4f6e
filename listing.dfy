/** Directory listings: the files a glob returns, and Python's `sorted` on
    paths of one directory, which orders them by name, character by
    character (code point order). */
module Listing {

  /** A file as the packager sees it: its full path, its name, the name
      without its last suffix, and its text already split into lines. */
  datatype SourceFile = SourceFile(path: string, name: string, stem: string, lines: seq<string>)

  /** Lexicographic `<=` on strings, as Python compares `str`. */
  predicate LexLe(a: string, b: string) {
    a == [] || (b != [] && (a[0] < b[0] || (a[0] == b[0] && LexLe(a[1..], b[1..]))))
  }

  /** Any two names are ordered one way or the other. */
  lemma {:induction false} LexLeTotal(a: string, b: string)
    ensures LexLe(a, b) || LexLe(b, a)
  {
    if a != [] && b != [] && a[0] == b[0] {
      LexLeTotal(a[1..], b[1..]);
    }
  }

  /** Each file's name is at most the next one's. */
  predicate SortedByName(fs: seq<SourceFile>) {
    forall i :: 0 <= i < |fs| - 1 ==> LexLe(fs[i].name, fs[i + 1].name)
  }

  /** The tail of a sorted listing is sorted. */
  lemma SortedTail(fs: seq<SourceFile>)
    requires fs != [] && SortedByName(fs)
    ensures SortedByName(fs[1..])
  {
    var rest := fs[1..];
    forall i | 0 <= i < |rest| - 1 ensures LexLe(rest[i].name, rest[i + 1].name) {
      assert rest[i] == fs[i + 1] && rest[i + 1] == fs[i + 2];
    }
  }

  /** A file no later than the head of a sorted listing can go in front. */
  lemma SortedCons(f: SourceFile, fs: seq<SourceFile>)
    requires SortedByName(fs)
    requires fs != [] ==> LexLe(f.name, fs[0].name)
    ensures SortedByName([f] + fs)
  {
    var r := [f] + fs;
    forall i | 0 <= i < |r| - 1 ensures LexLe(r[i].name, r[i + 1].name) {
      if i > 0 {
        assert r[i] == fs[i - 1] && r[i + 1] == fs[i];
      }
    }
  }

  /** Puts `f` into a sorted listing before the first name it does not exceed. */
  function Insert(f: SourceFile, fs: seq<SourceFile>): (r: seq<SourceFile>)
    requires SortedByName(fs)
    ensures SortedByName(r)
    ensures multiset(r) == multiset(fs) + multiset{f}
    ensures r[0] == f || (fs != [] && r[0] == fs[0])
  {
    if fs == [] then [f]
    else if LexLe(f.name, fs[0].name) then [f] + fs
    else
      var rest := fs[1..];
      SortedTail(fs);
      var tail := Insert(f, rest);
      LexLeTotal(f.name, fs[0].name);
      SortedCons(fs[0], tail);
      assert fs == [fs[0]] + rest;
      [fs[0]] + tail
  }

  /** Python's `sorted(paths)` for paths of one directory. */
  function SortByName(fs: seq<SourceFile>): (r: seq<SourceFile>)
    ensures SortedByName(r)
    ensures multiset(r) == multiset(fs)
  {
    if fs == [] then []
    else
      assert fs == [fs[0]] + fs[1..];
      Insert(fs[0], SortByName(fs[1..]))
  }
}
