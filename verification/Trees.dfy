/** A payload tree under the file operations materialization uses. Creating a name
    in a folder resets that folder's time. */
module Trees {
  import opened Outcomes
  import opened Protocol
  import opened Storage

  /** The folder a path lies in; "" is the payload root. */
  function Parent(p: string): (q: string)
    ensures p != "" ==> |q| < |p|
    ensures p == "" ==> q == ""
  {
    if p == "" then ""
    else if p[|p| - 1] == '/' then p[..|p| - 1]
    else Parent(p[..|p| - 1])
  }

  /** `p` can hold entries. */
  predicate IsFolder(t: Tree, p: string) {
    p == "" || (p in t && t[p].Folder?)
  }

  /** A new name `p` appeared at time `now`. */
  function Disturbed(t: Tree, p: string, now: int): Tree {
    var q := Parent(p);
    if q in t && t[q].Folder? then t[q := Folder(now)] else t
  }

  function MkdirAll(t: Tree, p: string, now: int): (r: Option<Tree>)
    decreases |p|
  {
    if p == "" then Some(t)
    else if p in t then (if t[p].Folder? then Some(t) else None)
    else
      match MkdirAll(t, Parent(p), now)
      case None => None
      case Some(t') => Some(Disturbed(t', p, now)[p := Folder(now)])
  }

  /** Everything of `t` is still in `t'`; only folder times may differ. */
  predicate Keeps(t: Tree, t': Tree) {
    forall p | p in t :: p in t' && (t'[p] == t[p] || (t[p].Folder? && t'[p].Folder?))
  }

  predicate NewAreFolders(t: Tree, t': Tree) {
    forall p | p in t' && p !in t :: t'[p].Folder?
  }

  lemma KeepsTransitive(a: Tree, b: Tree, c: Tree)
    requires Keeps(a, b) && Keeps(b, c)
    ensures Keeps(a, c)
    ensures NewAreFolders(a, b) && NewAreFolders(b, c) ==> NewAreFolders(a, c)
  {
  }

  /** Making a folder changes no file and fails only on a file in the way. */
  lemma {:induction false} MkdirAllKeeps(t: Tree, p: string, now: int)
    ensures var r := MkdirAll(t, p, now);
            && (r.Some? ==> IsFolder(r.value, p) && Keeps(t, r.value) && NewAreFolders(t, r.value))
            && (r.None? ==> exists q | q in t :: t[q].File?)
    decreases |p|
  {
    if p == "" || p in t {
    } else {
      MkdirAllKeeps(t, Parent(p), now);
    }
  }

  /** `q` is `p` or a folder on the way to it. */
  predicate Within(p: string, q: string)
    decreases |p|
  {
    p == q || (p != "" && Within(Parent(p), q))
  }

  /** The folders a path lies within are itself, the root, and what it continues after a slash. */
  lemma {:induction false} WithinExactly(p: string, q: string)
    ensures Within(p, q) <==> p == q || q == "" || q + "/" <= p
    decreases |p|
  {
    if p != "" {
      WithinExactly(Parent(p), q);
      if q != "" {
        ParentCuts(p, q);
      }
    } else {
      assert q + "/" <= p ==> |q + "/"| <= 0;
    }
  }

  lemma ParentWithin(p: string, q: string)
    requires q != ""
    ensures Within(Parent(p), q) <==> q + "/" <= p
  {
    hide Within;
    WithinExactly(Parent(p), q);
    ParentCuts(p, q);
  }

  /** Cutting a path at its last slash keeps what it continues. */
  lemma {:induction false} ParentCuts(p: string, q: string)
    requires q != ""
    ensures q + "/" <= p <==> Parent(p) == q || q + "/" <= Parent(p)
    decreases |p|
  {
    if p == "" {
      assert q + "/" <= p ==> |q + "/"| <= 0;
    } else {
      var n := |p| - 1;
      if p[n] == '/' {
        if q + "/" <= p && |q| < n {
          assert (q + "/") == p[..n][..|q| + 1];
        }
        if Parent(p) == q {
          assert p == q + "/";
        }
        if q + "/" <= p[..n] {
          assert p[..|q| + 1] == q + "/";
        }
      } else {
        ParentCuts(p[..n], q);
        if q + "/" <= p {
          assert p[|q|] == (q + "/")[|q|];
          assert |q| + 1 <= n;
          assert p[..n][..|q| + 1] == q + "/";
        }
        if q + "/" <= p[..n] {
          assert p[..|q| + 1] == q + "/";
        }
      }
    }
  }

  /** Making a folder adds only the folders on the way to it. */
  lemma {:induction false} MkdirAllAdds(t: Tree, p: string, now: int)
    ensures var r := MkdirAll(t, p, now);
            r.Some? ==> forall q | q in r.value && q !in t :: q != "" && Within(p, q)
    decreases |p|
  {
    if p == "" || p in t {
    } else {
      MkdirAllAdds(t, Parent(p), now);
    }
  }

  /** Every name lies in a folder that is there. */
  predicate Proper(t: Tree) {
    forall p | p in t :: p != "" && IsFolder(t, Parent(p))
  }

  lemma MakeNameProper(t: Tree, p: string, n: Node, now: int)
    requires Proper(t) && p != "" && IsFolder(t, Parent(p)) && (p in t ==> t[p].File? || n.Folder?)
    ensures Proper(Disturbed(t, p, now)[p := n])
  {
    var d := Disturbed(t, p, now);
    forall q: string | IsFolder(t, q)
      ensures IsFolder(d[p := n], q)
    {
    }
  }

  lemma {:induction false} MkdirAllProper(t: Tree, p: string, now: int)
    requires Proper(t)
    ensures var r := MkdirAll(t, p, now); r.Some? ==> Proper(r.value)
    decreases |p|
  {
    if p == "" || p in t {
    } else {
      MkdirAllProper(t, Parent(p), now);
      MkdirAllKeeps(t, Parent(p), now);
      var r := MkdirAll(t, Parent(p), now);
      if r.Some? {
        MakeNameProper(r.value, p, Folder(now), now);
      }
    }
  }

  lemma {:induction false} FoldersAllTheWay(t: Tree, p: string, q: string)
    requires Proper(t) && IsFolder(t, p) && Within(p, q)
    ensures IsFolder(t, q)
    decreases |p|
  {
    if p != q {
      FoldersAllTheWay(t, Parent(p), q);
    }
  }

  /** Puts a file at `p`, replacing a file but never a folder. */
  function PutFile(t: Tree, p: string, data: Bytes, now: int): Option<Tree> {
    if !IsFolder(t, Parent(p)) || p == "" || (p in t && t[p].Folder?) then None
    else Some(Disturbed(t, p, now)[p := File(data, false, now)])
  }

  /** From `t` to `t'` only files at the paths `w` came or changed; folder times apart. */
  predicate OnlyAt(t: Tree, t': Tree, w: set<string>) {
    && (forall q | q in t && q !in w :: q in t' && (t'[q] == t[q] || (t[q].Folder? && t'[q].Folder?)))
    && (forall q | q in t' && q !in w :: q in t)
    && (forall q | q in t && t[q].Folder? :: q in t' && t'[q].Folder?)
  }

  lemma OnlyAtTransitive(a: Tree, b: Tree, c: Tree, v: set<string>, w: set<string>)
    requires OnlyAt(a, b, v) && OnlyAt(b, c, w)
    ensures OnlyAt(a, c, v + w)
  {
  }

  predicate HasFile(t: Tree, p: string, data: Bytes) {
    p in t && t[p].File? && t[p].data == data
  }

  lemma PutFilePuts(t: Tree, p: string, data: Bytes, now: int)
    ensures var r := PutFile(t, p, data, now);
            && (r.None? <==> p == "" || !IsFolder(t, Parent(p)) || (p in t && t[p].Folder?))
            && (r.Some? ==> OnlyAt(t, r.value, {p}) && HasFile(r.value, p, data))
            && (r.Some? && Proper(t) ==> Proper(r.value))
  {
  }
}
