/**
 * Path strings as the sync layer builds and splits them: Python's
 * `os.path.basename` and `os.path.dirname` (POSIX flavour), and the map
 * between a remote key and its place in the local cache, `"data/" + key`.
 * Paths are plain strings; no normalisation of `.`, `..` or `//` is done,
 * exactly as the code does none.
 */
module Paths {
  import opened Wrappers

  type Path = string
  type Key = string

  /** The local cache directory; the object under key `k` lives at `data/k`. */
  const CacheDir: Path := "data"

  predicate AllSlashes(s: string) {
    forall j :: 0 <= j < |s| ==> s[j] == '/'
  }

  /**
   * The index just after the last '/' of `p` (0 when `p` has none): where
   * `posixpath.split` cuts `p` into head and tail.
   */
  function SplitPoint(p: string): (i: nat)
    ensures i <= |p|
  {
    if p == [] then 0
    else if p[|p| - 1] == '/' then |p|
    else SplitPoint(p[..|p| - 1])
  }

  /** SplitPoint cuts just after the last '/', and no '/' follows the cut. */
  lemma {:induction false} SplitPointAfterLastSlash(p: string)
    ensures SplitPoint(p) > 0 ==> p[SplitPoint(p) - 1] == '/'
    ensures forall j :: SplitPoint(p) <= j < |p| ==> p[j] != '/'
  {
    if p != [] && p[|p| - 1] != '/' {
      SplitPointAfterLastSlash(p[..|p| - 1]);
    }
  }

  /** `s` without its trailing slashes (`str.rstrip('/')`). */
  function StripTrailingSlashes(s: string): (r: string)
    ensures |r| <= |s|
  {
    if s != [] && s[|s| - 1] == '/' then StripTrailingSlashes(s[..|s| - 1]) else s
  }

  /** Stripping removes exactly the trailing run of slashes. */
  lemma {:induction false} StripTrailingSlashesRemovesRun(s: string)
    ensures StripTrailingSlashes(s) <= s
    ensures StripTrailingSlashes(s) == [] || StripTrailingSlashes(s)[|StripTrailingSlashes(s)| - 1] != '/'
    ensures forall j :: |StripTrailingSlashes(s)| <= j < |s| ==> s[j] == '/'
  {
    if s != [] && s[|s| - 1] == '/' {
      StripTrailingSlashesRemovesRun(s[..|s| - 1]);
    }
  }

  /** `os.path.basename`: everything after the last '/'. */
  function Basename(p: Path): string {
    p[SplitPoint(p)..]
  }

  /**
   * `os.path.dirname`: everything before the last '/', with the trailing
   * slashes of that head removed unless the head is slashes only.
   */
  function Dirname(p: Path): Path {
    var head := p[..SplitPoint(p)];
    if head != [] && !AllSlashes(head) then StripTrailingSlashes(head) else head
  }

  /**
   * The basename is the slash-free tail of `p`, preceded by the last '/'
   * of `p` when it is not all of `p`; a path without '/' is its own
   * basename. It is empty exactly when `p` is empty or ends in '/'.
   */
  lemma BasenameIsTail(p: Path)
    ensures '/' !in Basename(p)
    ensures Basename(p) == [] <==> p == [] || p[|p| - 1] == '/'
    ensures |Basename(p)| <= |p| && p[|p| - |Basename(p)|..] == Basename(p)
    ensures |Basename(p)| < |p| ==> p[|p| - |Basename(p)| - 1] == '/'
    ensures '/' !in p ==> Basename(p) == p
  {
    SplitPointAfterLastSlash(p);
    var i := SplitPoint(p);
    assert forall j :: 0 <= j < |p[i..]| ==> p[i..][j] == p[i + j];
  }

  /**
   * The dirname is the part of `p` before its basename, less the slashes
   * that end it: a prefix of `p`, strictly shorter when the basename is
   * not empty, empty exactly for a path without '/', followed in `p` by
   * slashes only up to the basename, and ending in '/' only when it is
   * slashes only, in which case it is that whole part.
   */
  lemma DirnameIsPrefix(p: Path)
    ensures Dirname(p) <= p
    ensures Basename(p) != [] ==> |Dirname(p)| < |p|
    ensures '/' !in p ==> Dirname(p) == []
    ensures '/' in p ==> Dirname(p) != []
    ensures |Dirname(p)| <= |p| - |Basename(p)|
    ensures forall j :: |Dirname(p)| <= j < |p| - |Basename(p)| ==> p[j] == '/'
    ensures AllSlashes(Dirname(p)) || Dirname(p)[|Dirname(p)| - 1] != '/'
    ensures AllSlashes(Dirname(p)) ==> |Dirname(p)| == |p| - |Basename(p)|
  {
    BasenameIsTail(p);
    SplitPointAfterLastSlash(p);
    var head := p[..SplitPoint(p)];
    StripTrailingSlashesRemovesRun(head);
  }

  /** Where the cache keeps the object stored under `key`: `data/` followed by the key. */
  function LocalPath(key: Key): (p: Path)
    ensures |p| == |CacheDir| + 1 + |key|
    ensures p[..|CacheDir|] == CacheDir && p[|CacheDir|] == '/' && p[|CacheDir| + 1..] == key
  {
    CacheDir + "/" + key
  }

  /** The inverse of LocalPath: the key a cache path mirrors, if it is under the root. */
  function KeyOf(p: Path): (k: Option<Key>)
    ensures k.Some? <==> CacheDir + "/" <= p
    ensures k.Some? ==> LocalPath(k.value) == p
  {
    if CacheDir + "/" <= p then Some(p[|CacheDir| + 1..]) else None
  }

  /** The directory `download_data` checks for the object stored under `key`. */
  function LocalDir(key: Key): Path {
    Dirname(LocalPath(key))
  }

  /** Keys and cache paths are in one-to-one correspondence. */
  lemma KeyPathRoundTrip(key: Key)
    ensures KeyOf(LocalPath(key)) == Some(key)
  {
    assert CacheDir + "/" <= LocalPath(key);
    assert LocalPath(key)[|CacheDir| + 1..] == key;
  }

  lemma LocalPathInjective(k1: Key, k2: Key)
    requires LocalPath(k1) == LocalPath(k2)
    ensures k1 == k2
  {
    KeyPathRoundTrip(k1);
    KeyPathRoundTrip(k2);
  }

  /**
   * Joining a directory and a plain file name with '/' is undone by
   * Dirname and Basename, as long as the directory is non-empty and does
   * not itself end in '/'.
   */
  lemma SplitJoined(dir: Path, name: string)
    requires dir != [] && dir[|dir| - 1] != '/'
    requires '/' !in name
    ensures Dirname(dir + "/" + name) == dir
    ensures Basename(dir + "/" + name) == name
  {
    var p := dir + "/" + name;
    var i := SplitPoint(p);
    SplitPointAfterLastSlash(p);
    assert p[|dir|] == '/';
    assert i == |dir| + 1;
    var head := p[..i];
    assert head == dir + "/";
    assert head[|dir| - 1] != '/';
    assert StripTrailingSlashes(head) == dir;
    assert p[i..] == name;
  }

  /**
   * The same with any run of slashes between the two: `data/drone//a.tif`
   * has dirname `data/drone` and basename `a.tif`.
   */
  lemma SlashRunJoined(dir: Path, sep: string, name: string)
    requires dir != [] && dir[|dir| - 1] != '/'
    requires sep != [] && AllSlashes(sep)
    requires '/' !in name
    ensures Dirname(dir + sep + name) == dir
    ensures Basename(dir + sep + name) == name
  {
    var p := dir + sep + name;
    var cut := |dir| + |sep|;
    SplitPointAfterLastSlash(p);
    assert p[cut - 1] == sep[|sep| - 1];
    assert forall j :: cut <= j < |p| ==> p[j] == name[j - cut];
    assert SplitPoint(p) == cut;
    var head := p[..cut];
    assert head == dir + sep;
    assert head[|dir| - 1] != '/';
    var r := StripTrailingSlashes(head);
    StripTrailingSlashesRemovesRun(head);
    assert |r| == |dir|;
    assert r == head[..|dir|] == dir;
    assert p[cut..] == name;
  }

  /** The directory of the cache's subtree for one category, `data/<category>`. */
  function CategoryDir(category: string): Path {
    CacheDir + "/" + category
  }

  /**
   * The directory of every cached object lies under `data`, so
   * `os.makedirs` is never asked to create "".
   */
  lemma LocalDirUnderCacheDir(key: Key)
    ensures CacheDir <= LocalDir(key)
  {
    var p := LocalPath(key);
    var i := SplitPoint(p);
    SplitPointAfterLastSlash(p);
    assert p[4] == '/';
    assert i >= 5;
    var head := p[..i];
    assert head[0] != '/';
    assert !AllSlashes(head);
    var r := StripTrailingSlashes(head);
    StripTrailingSlashesRemovesRun(head);
    assert head[3] == 'a';
    assert |r| >= 4;
    assert r[..4] == head[..4] == CacheDir;
  }

  /** An object `<category>/<name>` with plain names is cached in `data/<category>`. */
  lemma CategoryObjectDir(category: string, name: string)
    requires category != [] && category[|category| - 1] != '/' && '/' !in name
    ensures LocalPath(category + "/" + name) == CategoryDir(category) + "/" + name
    ensures LocalDir(category + "/" + name) == CategoryDir(category)
  {
    assert LocalPath(category + "/" + name) == CategoryDir(category) + "/" + name;
    SplitJoined(CategoryDir(category), name);
  }
}
