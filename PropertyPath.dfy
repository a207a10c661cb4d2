/**
 * Resolution of a dotted member path to the type of its last property,
 * with an explicit table of declared properties in place of reflection.
 */
module PropertyPath {
  import opened Optional
  import opened Kendo
  import opened Failures

  /** For each type, its public properties and their declared types. */
  type Schema = map<TypeName, map<string, TypeName>>

  /** `type.GetProperty(name)`, reduced to the property's type; None where reflection gives null. */
  function Property(schema: Schema, t: TypeName, name: string): Option<TypeName> {
    if t in schema && name in schema[t] then Some(schema[t][name]) else None
  }

  /**
   * `s.Split(sep)` with no options: one piece more than there are separators,
   * empty pieces kept.
   */
  function Split(s: string, sep: char): (pieces: seq<string>)
    ensures |pieces| >= 1
  {
    if s == [] then [""]
    else
      var rest := Split(s[1..], sep);
      if s[0] == sep then [""] + rest else [[s[0]] + rest[0]] + rest[1..]
  }

  /** `string.Join(sep, pieces)`: the inverse of Split. */
  function Join(pieces: seq<string>, sep: char): string
    requires |pieces| >= 1
  {
    if |pieces| == 1 then pieces[0] else pieces[0] + [sep] + Join(pieces[1..], sep)
  }

  /** Rejoining the pieces gives back the string. */
  lemma {:induction false} JoinSplit(s: string, sep: char)
    ensures Join(Split(s, sep), sep) == s
  {
    if s != [] {
      JoinSplit(s[1..], sep);
      var rest := Split(s[1..], sep);
      if s[0] != sep {
        if |rest| == 1 {
          assert Split(s, sep) == [[s[0]] + rest[0]];
        } else {
          assert Split(s, sep)[1..] == rest[1..];
          assert Join(rest, sep) == rest[0] + [sep] + Join(rest[1..], sep);
        }
      } else {
        assert Split(s, sep)[1..] == rest;
      }
    }
  }

  /** No piece contains the separator. */
  lemma {:induction false} SplitPiecesLackSeparator(s: string, sep: char)
    ensures forall i :: 0 <= i < |Split(s, sep)| ==> sep !in Split(s, sep)[i]
  {
    if s != [] {
      SplitPiecesLackSeparator(s[1..], sep);
      var rest := Split(s[1..], sep);
      if s[0] != sep {
        assert sep !in rest[0];
        forall i | 0 <= i < |Split(s, sep)| ensures sep !in Split(s, sep)[i] {
          if i > 0 { assert Split(s, sep)[i] == rest[i]; }
        }
      }
    }
  }

  /** Splitting a join of separator-free pieces gives back the pieces. */
  lemma {:induction false} SplitJoin(pieces: seq<string>, sep: char)
    requires |pieces| >= 1
    requires forall i :: 0 <= i < |pieces| ==> sep !in pieces[i]
    ensures Split(Join(pieces, sep), sep) == pieces
  {
    if |pieces| == 1 {
      SplitPiece(pieces[0], sep);
    } else {
      SplitJoin(pieces[1..], sep);
      SplitPrefix(pieces[0], Join(pieces[1..], sep), sep);
      assert [pieces[0]] + pieces[1..] == pieces;
    }
  }

  /** A separator-free string is one piece. */
  lemma {:induction false} SplitPiece(p: string, sep: char)
    requires sep !in p
    ensures Split(p, sep) == [p]
  {
    if p != [] {
      SplitPiece(p[1..], sep);
      assert [p[0]] + p[1..] == p;
    }
  }

  /** A separator-free prefix followed by the separator becomes the first piece. */
  lemma {:induction false} SplitPrefix(p: string, rest: string, sep: char)
    requires sep !in p
    ensures Split(p + [sep] + rest, sep) == [p] + Split(rest, sep)
  {
    if p == [] {
      assert p + [sep] + rest == [sep] + rest;
      assert ([sep] + rest)[1..] == rest;
    } else {
      SplitPrefix(p[1..], rest, sep);
      assert (p + [sep] + rest)[1..] == p[1..] + [sep] + rest;
      assert [p[0]] + p[1..] == p;
    }
  }

  /** Joining a concatenation of piece lists puts one separator between the joins. */
  lemma {:induction false} JoinAppend(a: seq<string>, b: seq<string>, sep: char)
    requires |a| >= 1 && |b| >= 1
    ensures Join(a + b, sep) == Join(a, sep) + [sep] + Join(b, sep)
  {
    if |a| == 1 {
      assert (a + b)[1..] == b;
    } else {
      JoinAppend(a[1..], b, sep);
      assert (a + b)[1..] == a[1..] + b;
    }
  }

  /** A separator between two strings splits into the pieces of each. */
  lemma SplitAppend(p: string, q: string, sep: char)
    ensures Split(p + [sep] + q, sep) == Split(p, sep) + Split(q, sep)
  {
    var a, b := Split(p, sep), Split(q, sep);
    JoinSplit(p, sep);
    JoinSplit(q, sep);
    JoinAppend(a, b, sep);
    assert Join(a + b, sep) == p + [sep] + q;
    SplitPiecesLackSeparator(p, sep);
    SplitPiecesLackSeparator(q, sep);
    forall i | 0 <= i < |a + b| ensures sep !in (a + b)[i] {
      if i < |a| {
        assert (a + b)[i] == a[i];
      } else {
        assert (a + b)[i] == b[i - |a|];
      }
    }
    SplitJoin(a + b, sep);
  }

  /** The type reached from `t` by following each property name in turn. */
  function Follow(schema: Schema, t: TypeName, segments: seq<string>): Result<TypeName>
    decreases |segments|
  {
    if segments == [] then Ok(t)
    else match Property(schema, t, segments[0])
      case None => Err(NullReference(t, segments[0]))
      case Some(u) => Follow(schema, u, segments[1..])
  }

  /** The type reached from `t` along a dotted path. */
  function FollowPath(schema: Schema, t: TypeName, path: string): Result<TypeName> {
    Follow(schema, t, Split(path, '.'))
  }

  /** `FollowPropertyPath`: walks the path one segment at a time, reassigning the current type. */
  method FollowPropertyPath(schema: Schema, t: TypeName, path: string) returns (r: Result<TypeName>)
    ensures r == FollowPath(schema, t, path)
  {
    var segments := Split(path, '.');
    var current := t;
    var i := 0;
    while i < |segments|
      invariant 0 <= i <= |segments|
      invariant Follow(schema, t, segments) == Follow(schema, current, segments[i..])
    {
      assert segments[i..][1..] == segments[i + 1..];
      var property := Property(schema, current, segments[i]);
      if property.None? {
        return Err(NullReference(current, segments[i]));
      }
      current := property.value;
      i := i + 1;
    }
    return Ok(current);
  }

  /** `types` is the chain of types a walk along `segments` passes through. */
  ghost predicate IsChain(schema: Schema, types: seq<TypeName>, segments: seq<string>) {
    |types| == |segments| + 1 &&
    forall i :: 0 <= i < |segments| ==> Property(schema, types[i], segments[i]) == Some(types[i + 1])
  }

  /** A successful walk follows a chain of declared properties from `t` to the result. */
  lemma {:induction false} FollowFindsChain(schema: Schema, t: TypeName, segments: seq<string>, u: TypeName)
    requires Follow(schema, t, segments) == Ok(u)
    ensures exists types :: IsChain(schema, types, segments) && types[0] == t && types[|segments|] == u
    decreases |segments|
  {
    if segments == [] {
      assert IsChain(schema, [t], segments);
    } else {
      var next := Property(schema, t, segments[0]).value;
      FollowFindsChain(schema, next, segments[1..], u);
      var rest :| IsChain(schema, rest, segments[1..]) && rest[0] == next && rest[|segments| - 1] == u;
      var types := [t] + rest;
      forall i | 0 <= i < |segments| ensures Property(schema, types[i], segments[i]) == Some(types[i + 1]) {
        if i > 0 { assert segments[i] == segments[1..][i - 1]; }
      }
      assert IsChain(schema, types, segments);
    }
  }

  /** Every chain of declared properties is what the walk follows. */
  lemma {:induction false} ChainIsFollowed(schema: Schema, types: seq<TypeName>, segments: seq<string>)
    requires IsChain(schema, types, segments)
    ensures Follow(schema, types[0], segments) == Ok(types[|segments|])
    decreases |segments|
  {
    if segments != [] {
      assert Property(schema, types[0], segments[0]) == Some(types[1]);
      assert IsChain(schema, types[1..], segments[1..]) by {
        forall i | 0 <= i < |segments| - 1
          ensures Property(schema, types[1..][i], segments[1..][i]) == Some(types[1..][i + 1])
        {
          assert Property(schema, types[i + 1], segments[i + 1]) == Some(types[i + 2]);
        }
      }
      ChainIsFollowed(schema, types[1..], segments[1..]);
    }
  }

  /** A segment that the type reached so far does not declare makes the walk fail, naming that type and segment. */
  lemma {:induction false} MissingSegmentFails(schema: Schema, types: seq<TypeName>, segments: seq<string>, k: nat)
    requires k < |segments| && |types| == k + 1
    requires IsChain(schema, types, segments[..k])
    requires Property(schema, types[k], segments[k]).None?
    ensures Follow(schema, types[0], segments) == Err(NullReference(types[k], segments[k]))
    decreases k
  {
    if k > 0 {
      assert Property(schema, types[0], segments[0]) == Some(types[1]) by {
        assert segments[..k][0] == segments[0];
      }
      assert IsChain(schema, types[1..], segments[1..][..k - 1]) by {
        forall i | 0 <= i < k - 1
          ensures Property(schema, types[1..][i], segments[1..][..k - 1][i]) == Some(types[1..][i + 1])
        {
          assert segments[1..][..k - 1][i] == segments[..k][i + 1];
        }
      }
      MissingSegmentFails(schema, types[1..], segments[1..], k - 1);
    }
  }

  /** Walking `a + b` walks `a`, then `b` from where `a` ended. */
  lemma {:induction false} FollowAppend(schema: Schema, t: TypeName, a: seq<string>, b: seq<string>)
    ensures Follow(schema, t, a + b) ==
            match Follow(schema, t, a)
            case Ok(u) => Follow(schema, u, b)
            case Err(e) => Err(e)
    decreases |a|
  {
    if a == [] {
      assert a + b == b;
    } else {
      assert (a + b)[0] == a[0] && (a + b)[1..] == a[1..] + b;
      if Property(schema, t, a[0]).Some? {
        FollowAppend(schema, Property(schema, t, a[0]).value, a[1..], b);
      }
    }
  }

  /** Resolution composes: the path `p.q` from `t` is the path `q` from the type of `p`. */
  lemma PathComposes(schema: Schema, t: TypeName, p: string, q: string)
    ensures FollowPath(schema, t, p + "." + q) ==
            match FollowPath(schema, t, p)
            case Ok(u) => FollowPath(schema, u, q)
            case Err(e) => Err(e)
  {
    SplitAppend(p, q, '.');
    FollowAppend(schema, t, Split(p, '.'), Split(q, '.'));
  }
}
