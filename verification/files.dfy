/**
 * The few `pathlib`/`os.path` operations the converters rely on: joining a
 * name onto a directory, a path's parent, making it absolute, and the
 * `*<suffix>` glob over a directory listing.
 */
module Files {
  import opened Utils

  /** `os.path.join(dir, name)` for a relative `name`. */
  function Join(dir: string, name: string): (p: string)
    ensures EndsWith(p, name)
  {
    if |dir| == 0 || dir[|dir| - 1] == '/' then dir + name else dir + "/" + name
  }

  /** A joined path is the name behind a prefix that is empty or ends in '/'. */
  lemma JoinShape(dir: string, name: string) returns (prefix: string)
    ensures Join(dir, name) == prefix + name
    ensures prefix == "" || prefix[|prefix| - 1] == '/'
  {
    if |dir| == 0 || dir[|dir| - 1] == '/' {
      prefix := dir;
    } else {
      prefix := dir + "/";
      assert dir + "/" + name == prefix + name;
    }
  }

  /** The base name of a name joined onto a directory is that name. */
  lemma BasenameOfJoin(dir: string, name: string)
    requires '/' !in name
    ensures Basename(Join(dir, name)) == name
  {
    var prefix := JoinShape(dir, name);
    var p := prefix + name;
    LastSlashKept(prefix, name);
    if prefix == "" {
      assert p == name;
      RFindIs(name, '/', -1);
    } else {
      RFindIs(prefix, '/', |prefix| - 1);
      assert p[|prefix|..] == name;
    }
  }

  /** `Path(p).parent` for a path in normal form (no trailing or doubled '/'). */
  function Parent(p: string): (d: string)
    ensures |d| > 0
  {
    var i := RFind(p, '/');
    if i < 0 then "." else if i == 0 then "/" else p[..i]
  }

  /** `Path(p).absolute()`: relative paths are resolved against the working directory. */
  function Absolute(p: string, cwd: string): (a: string)
    ensures |p| > 0 && p[0] == '/' ==> a == p
    ensures !(|p| > 0 && p[0] == '/') ==> EndsWith(a, p)
  {
    if |p| > 0 && p[0] == '/' then p else Join(cwd, p)
  }

  /** A directory in normal form: not empty, and no trailing '/' unless it is the root. */
  predicate IsNormalDir(dir: string) {
    |dir| > 0 && (dir == "/" || dir[|dir| - 1] != '/')
  }

  /** The parent of a file joined onto a directory is that directory. */
  lemma ParentOfJoin(dir: string, name: string)
    requires IsNormalDir(dir)
    requires '/' !in name
    ensures Parent(Join(dir, name)) == dir
  {
    var prefix := JoinShape(dir, name);
    assert prefix == dir + "/" || dir == "/";
    if dir == "/" {
      assert prefix == "/";
    }
    LastSlashKept(prefix, name);
    RFindIs(prefix, '/', |prefix| - 1);
    assert (prefix + name)[..|prefix| - 1] == prefix[..|prefix| - 1];
  }

  /** The names of `names` that end in `suffix`, in listing order: `fnmatch` of `*<suffix>`. */
  function Matching(names: seq<string>, suffix: string): (r: seq<string>)
    ensures |r| <= |names|
    ensures forall k :: 0 <= k < |r| ==> r[k] in names && EndsWith(r[k], suffix)
    ensures forall i :: 0 <= i < |names| && EndsWith(names[i], suffix) ==> names[i] in r
  {
    if |names| == 0 then []
    else if EndsWith(names[0], suffix) then [names[0]] + Matching(names[1..], suffix)
    else Matching(names[1..], suffix)
  }

  /** Matching distributes over a split listing: order and repeats are kept. */
  lemma {:induction false} MatchingAppend(a: seq<string>, b: seq<string>, suffix: string)
    ensures Matching(a + b, suffix) == Matching(a, suffix) + Matching(b, suffix)
  {
    if |a| == 0 {
      assert a + b == b;
    } else {
      assert (a + b)[0] == a[0];
      assert (a + b)[1..] == a[1..] + b;
      MatchingAppend(a[1..], b, suffix);
    }
  }

  /** A single entry is kept exactly when it ends in the suffix. */
  lemma MatchingSingle(name: string, suffix: string)
    ensures Matching([name], suffix) == if EndsWith(name, suffix) then [name] else []
  {
    assert [name][1..] == [];
  }

  /** The first match is the earliest entry of the listing that ends in the suffix. */
  lemma {:induction false} FirstMatchIsEarliest(names: seq<string>, suffix: string, i: nat)
    requires i < |names| && EndsWith(names[i], suffix)
    requires forall j :: 0 <= j < i ==> !EndsWith(names[j], suffix)
    ensures |Matching(names, suffix)| > 0 && Matching(names, suffix)[0] == names[i]
  {
    if i > 0 {
      FirstMatchIsEarliest(names[1..], suffix, i - 1);
    }
  }

  /** `Path(dir).glob("*" + suffix)`, as full paths, in the order the listing gives. */
  function Glob(dir: string, names: seq<string>, suffix: string): (r: seq<string>)
    ensures |r| == |Matching(names, suffix)|
    ensures forall k :: 0 <= k < |r| ==> r[k] == Join(dir, Matching(names, suffix)[k])
    ensures |r| == 0 <==> forall i :: 0 <= i < |names| ==> !EndsWith(names[i], suffix)
  {
    var m := Matching(names, suffix);
    assert |m| > 0 ==> m[0] in names;
    seq(|m|, k requires 0 <= k < |m| => Join(dir, m[k]))
  }
}
