/** How the paths of a walk decompose. */
module Paths {
  import opened Protocol
  import opened Trees
  import opened Scanning

  predicate NoSlash(s: string) {
    forall i | 0 <= i < |s| :: s[i] != '/'
  }

  lemma ComponentHasNoSlash(c: string)
    requires PortableComponent(c)
    ensures NoSlash(c) && '\\' !in c && (|c| >= 2 ==> c[1] != ':')
  {
    hide ByteLen, Stem, Lower;
    forall i | 0 <= i < |c|
      ensures c[i] != '/' && c[i] != '\\' && c[i] != ':'
    {
      assert ComponentChar(c[i]);
      assert RESERVED_CHARS[8] == '/' && RESERVED_CHARS[7] == '\\' && RESERVED_CHARS[2] == ':';
    }
  }

  lemma {:induction false} TopStops(name: string, rest: string)
    requires NoSlash(name) && (rest == "" || rest[0] == '/')
    ensures Top(name + rest) == name
  {
    if name == "" {
      assert name + rest == rest;
    } else {
      assert (name + rest)[1..] == name[1..] + rest;
      TopStops(name[1..], rest);
    }
  }

  /** A portable name is a portable path of one component. */
  lemma ComponentIsPath(c: string)
    requires PortableComponent(c)
    ensures PortablePath(c) && Top(c) == c
  {
    hide ByteLen;
    ComponentHasNoSlash(c);
    assert c + "" == c;
    TopStops(c, "");
    assert Components(c) == [c];
  }

  lemma TopOfVirtual(name: string, rel: string)
    requires PortableComponent(name)
    ensures Top(Virtual(name, rel)) == name
  {
    hide PortableComponent;
    ComponentHasNoSlash(name);
    if rel == "" {
      ComponentIsPath(name);
    } else {
      assert name + "/" + rel == name + ("/" + rel);
      TopStops(name, "/" + rel);
    }
  }

  lemma {:induction false} ParentOfName(name: string)
    requires NoSlash(name)
    ensures Parent(name) == ""
  {
    if name != "" {
      ParentOfName(name[..|name| - 1]);
    }
  }

  /** The folder of a walked path is the walked folder. */
  lemma {:induction false} ParentOfVirtual(name: string, rel: string)
    requires NoSlash(name) && rel != "" && rel[0] != '/'
    ensures Parent(Virtual(name, rel)) == Virtual(name, Parent(rel))
    decreases |rel|
  {
    var p := Virtual(name, rel);
    var shorter := rel[..|rel| - 1];
    assert p[..|p| - 1] == name + "/" + shorter;
    assert p[|p| - 1] == rel[|rel| - 1];
    if rel[|rel| - 1] == '/' {
    } else if |rel| == 1 {
      assert name + "/" + shorter == name + "/";
      assert (name + "/")[..|name|] == name;
    } else {
      ParentOfVirtual(name, shorter);
    }
  }

}
