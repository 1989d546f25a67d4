/**
 * Work-queue keys: the "<namespace>/<name>" key the informer's key function
 * builds, and Java's `key.split("/")[1]`, which both the event filter and
 * the consumer loop use to recover the name.
 */
module Keys {
  import opened Wrappers

  /** The key of an object: its namespace and its name joined by one slash. */
  function MetaNamespaceKey(namespace: string, name: string): (key: string)
    ensures |key| == |namespace| + 1 + |name|
    ensures key[..|namespace|] == namespace && key[|namespace|] == '/'
    ensures key[|namespace| + 1..] == name
  {
    namespace + "/" + name
  }

  /** The consumer's guard: a key is processed only if it is non-empty and contains a slash. */
  predicate WellFormed(key: string)
    ensures WellFormed(key) <==> '/' in key   // the emptiness test adds nothing to the slash test
  {
    key != "" && '/' in key
  }

  /** The index of the first slash of `s`. */
  function FirstSlash(s: string): (i: nat)
    requires '/' in s
    ensures i < |s| && s[i] == '/'
    ensures forall j :: 0 <= j < i ==> s[j] != '/'
  {
    if s[0] == '/' then 0
    else
      assert s == [s[0]] + s[1..];
      1 + FirstSlash(s[1..])
  }

  /** The part of `s` before its first slash; all of `s` when it has none. */
  function UpToSlash(s: string): (r: string)
    ensures |r| <= |s| && r == s[..|r|] && '/' !in r
    ensures |r| < |s| ==> s[|r|] == '/'
  {
    if '/' in s then s[..FirstSlash(s)] else s
  }

  /** The part of `s` after its first slash. */
  function AfterFirstSlash(s: string): (r: string)
    requires '/' in s
    ensures |r| < |s| && r == s[|s| - |r|..] && s[|s| - |r| - 1] == '/'
  {
    s[FirstSlash(s) + 1..]
  }

  /**
   * The pieces of `s` between its slashes, empty pieces included:
   * a string with k slashes has k + 1 pieces.
   */
  function Pieces(s: string): (r: seq<string>)
    ensures |r| >= 1 && r[0] == UpToSlash(s)
    ensures forall k :: 0 <= k < |r| ==> '/' !in r[k]
    decreases |s|
  {
    if '/' !in s then [s]
    else
      var i := FirstSlash(s);
      [s[..i]] + Pieces(s[i + 1..])
  }

  /**
   * Removes the empty strings at the end of `xs`, as Java's `String.split`
   * does when called without a limit.
   */
  function DropTrailingEmpty(xs: seq<string>): (r: seq<string>)
    ensures |r| <= |xs| && r == xs[..|r|]
    ensures r != [] ==> r[|r| - 1] != ""
    ensures forall k :: |r| <= k < |xs| ==> xs[k] == ""
  {
    if xs == [] then []
    else
      var tail := DropTrailingEmpty(xs[1..]);
      if tail == [] && xs[0] == "" then [] else [xs[0]] + tail
  }

  /**
   * Java's `s.split("/")`: a string without a slash splits into itself (even
   * the empty string); otherwise into its pieces, trailing empty pieces dropped.
   */
  function Split(s: string): (r: seq<string>)
    ensures '/' !in s ==> r == [s]
    ensures forall k :: 0 <= k < |r| ==> '/' !in r[k]
    ensures '/' in s && r != [] ==> r[|r| - 1] != ""
    ensures |r| > 0 ==> r[0] == UpToSlash(s)
  {
    if '/' !in s then [s] else DropTrailingEmpty(Pieces(s))
  }

  /**
   * Java's `s.split("/")[1]`, with None where Java throws
   * ArrayIndexOutOfBoundsException because the split has fewer than two parts.
   */
  function SecondSegment(s: string): (r: Option<string>)
    ensures r.Some? ==> '/' in s && '/' !in r.value
  {
    var parts := Split(s);
    if |parts| > 1 then Some(parts[1]) else None
  }

  /** The pieces of `t` are all empty exactly when `t` consists of slashes only. */
  lemma {:induction false} PiecesAllEmpty(t: string)
    ensures (forall k :: 0 <= k < |Pieces(t)| ==> Pieces(t)[k] == "")
        <==> (forall j :: 0 <= j < |t| ==> t[j] == '/')
    decreases |t|
  {
    if '/' in t {
      var i := FirstSlash(t);
      var u := t[i + 1..];
      PiecesAllEmpty(u);
      assert Pieces(t) == [t[..i]] + Pieces(u);
      if forall j :: 0 <= j < |t| ==> t[j] == '/' {
        assert i == 0;
        forall j | 0 <= j < |u| ensures u[j] == '/' {
          assert u[j] == t[i + 1 + j];
        }
        forall k | 0 <= k < |Pieces(t)| ensures Pieces(t)[k] == "" {
          if k > 0 { assert Pieces(t)[k] == Pieces(u)[k - 1]; }
        }
      }
      if forall k :: 0 <= k < |Pieces(t)| ==> Pieces(t)[k] == "" {
        assert Pieces(t)[0] == t[..i];
        assert i == 0;
        forall k | 0 <= k < |Pieces(u)| ensures Pieces(u)[k] == "" {
          assert Pieces(u)[k] == Pieces(t)[k + 1];
        }
        forall j | 0 <= j < |t| ensures t[j] == '/' {
          if j > 0 { assert t[j] == u[j - 1]; }
        }
      }
    } else {
      assert Pieces(t) == [t];
      if t != [] {
        assert t[0] != '/';
      }
    }
  }

  /** With a slash in `s`, the second part of the split is the first piece of what follows the slash. */
  lemma SplitAfterSlash(s: string)
    requires '/' in s
    ensures |Split(s)| > 1 <==> DropTrailingEmpty(Pieces(AfterFirstSlash(s))) != []
    ensures |Split(s)| > 1 ==> Split(s)[1] == UpToSlash(AfterFirstSlash(s))
  {
    var i := FirstSlash(s);
    var t := AfterFirstSlash(s);
    var xs := Pieces(s);
    assert xs == [s[..i]] + Pieces(t);
    assert xs[1..] == Pieces(t);
    var tail := DropTrailingEmpty(Pieces(t));
    assert DropTrailingEmpty(xs) == if tail == [] && xs[0] == "" then [] else [xs[0]] + tail;
  }

  /** Dropping the trailing empty strings leaves nothing exactly when every string is empty. */
  lemma DropTrailingEmptyNil(xs: seq<string>)
    ensures DropTrailingEmpty(xs) == [] <==> forall k :: 0 <= k < |xs| ==> xs[k] == ""
  {
    var r := DropTrailingEmpty(xs);
    if r != [] {
      assert xs[|r| - 1] == r[|r| - 1];
    }
  }

  /** The characters after index i are all slashes exactly when the suffix after i consists of slashes. */
  lemma SlashesAfter(s: string, i: nat, t: string)
    requires i < |s| && t == s[i + 1..]
    ensures (forall j :: i < j < |s| ==> s[j] == '/') <==> (forall j :: 0 <= j < |t| ==> t[j] == '/')
  {
    assert forall j :: 0 <= j < |t| ==> t[j] == s[i + 1 + j];
    if forall j :: 0 <= j < |t| ==> t[j] == '/' {
      forall j | i < j < |s| ensures s[j] == '/' {
        assert s[j] == t[j - i - 1];
      }
    }
  }

  /** Something other than a slash follows the first slash exactly when the tail of the split is not empty. */
  lemma NonSlashAfterFirst(s: string)
    requires '/' in s
    ensures (exists j :: FirstSlash(s) < j < |s| && s[j] != '/')
        <==> DropTrailingEmpty(Pieces(AfterFirstSlash(s))) != []
  {
    var i := FirstSlash(s);
    var t := AfterFirstSlash(s);
    assert t == s[i + 1..];
    SlashesAfter(s, i, t);
    DropTrailingEmptyNil(Pieces(t));
    PiecesAllEmpty(t);
  }

  /**
   * The reference reading of `split("/")[1]`: it exists exactly when the key
   * has a slash followed somewhere by a character other than a slash, and it
   * is then the text between the first slash and the next one.
   */
  lemma SecondSegmentSpec(s: string)
    ensures SecondSegment(s).Some?
        <==> '/' in s && exists j :: FirstSlash(s) < j < |s| && s[j] != '/'
    ensures SecondSegment(s).Some? ==> SecondSegment(s).value == UpToSlash(AfterFirstSlash(s))
  {
    if '/' in s {
      SplitAfterSlash(s);
      NonSlashAfterFirst(s);
    }
  }

  /**
   * For a key built from a namespace and a name without slashes, as
   * Kubernetes object names are, `split("/")[1]` gives back the name,
   * except that an empty name makes it throw.
   */
  lemma KeySecondSegment(namespace: string, name: string)
    requires '/' !in namespace && '/' !in name
    ensures SecondSegment(MetaNamespaceKey(namespace, name))
         == if name == "" then None else Some(name)
  {
    var key := MetaNamespaceKey(namespace, name);
    assert key[|namespace|] == '/';
    var i := FirstSlash(key);
    assert forall j :: 0 <= j < |namespace| ==> key[j] == namespace[j];
    assert i == |namespace|;
    assert AfterFirstSlash(key) == name;
    SecondSegmentSpec(key);
    if name != "" {
      assert key[i + 1] == name[0];
    } else {
      assert |key| == i + 1;
    }
  }
}
