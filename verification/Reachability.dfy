/** Finite directed relations: paths, acyclicity, and what keeps it. */
module Reachability {

  /** A path of exactly `n` links leads from `x` to `y`. */
  ghost predicate Path<T(!new)>(links: set<(T, T)>, x: T, y: T, n: nat) {
    if n == 0 then x == y
    else exists z :: (x, z) in links && Path(links, z, y, n - 1)
  }

  ghost predicate Reaches<T(!new)>(links: set<(T, T)>, x: T, y: T) {
    exists n: nat :: Path(links, x, y, n)
  }

  /** No link can be closed into a cycle. */
  ghost predicate Acyclic<T(!new)>(links: set<(T, T)>) {
    forall x, y :: (x, y) in links ==> !Reaches(links, y, x)
  }

  /** Every node has at most one outgoing link. */
  ghost predicate SingleParent<T(!new)>(links: set<(T, T)>) {
    forall x, y, z :: (x, y) in links && (x, z) in links ==> y == z
  }

  lemma ReachesSelf<T(!new)>(links: set<(T, T)>, x: T)
    ensures Reaches(links, x, x)
  {
    assert Path(links, x, x, 0);
  }

  lemma ReachesAfterLink<T(!new)>(links: set<(T, T)>, x: T, z: T, y: T)
    requires (x, z) in links && Reaches(links, z, y)
    ensures Reaches(links, x, y)
  {
    var n: nat :| Path(links, z, y, n);
    assert Path(links, x, y, n + 1);
  }

  lemma {:induction false} PathsCompose<T(!new)>(links: set<(T, T)>, x: T, y: T, z: T, n: nat)
    requires Path(links, x, y, n) && Reaches(links, y, z)
    ensures Reaches(links, x, z)
    decreases n
  {
    if n > 0 {
      var w :| (x, w) in links && Path(links, w, y, n - 1);
      PathsCompose(links, w, y, z, n - 1);
      ReachesAfterLink(links, x, w, z);
    }
  }

  lemma ReachesCompose<T(!new)>(links: set<(T, T)>, x: T, y: T, z: T)
    requires Reaches(links, x, y) && Reaches(links, y, z)
    ensures Reaches(links, x, z)
  {
    var n: nat :| Path(links, x, y, n);
    PathsCompose(links, x, y, z, n);
  }

  lemma {:induction false} PathInSuperset<T(!new)>(small: set<(T, T)>, large: set<(T, T)>, x: T, y: T, n: nat)
    requires small <= large && Path(small, x, y, n)
    ensures Path(large, x, y, n)
    decreases n
  {
    if n > 0 {
      var z :| (x, z) in small && Path(small, z, y, n - 1);
      PathInSuperset(small, large, z, y, n - 1);
    }
  }

  /** Removing links never creates a cycle. */
  lemma SubsetStaysAcyclic<T(!new)>(small: set<(T, T)>, large: set<(T, T)>)
    requires small <= large && Acyclic(large)
    ensures Acyclic(small)
  {
    forall x, y | (x, y) in small ensures !Reaches(small, y, x) {
      if Reaches(small, y, x) {
        var n: nat :| Path(small, y, x, n);
        PathInSuperset(small, large, y, x, n);
      }
    }
  }

  /** A path over one extra link either avoids it or splits at it. */
  lemma {:induction false} PathSplitsAtNewLink<T(!new)>(links: set<(T, T)>, c: T, p: T, x: T, y: T, n: nat)
    requires Path(links + {(c, p)}, x, y, n)
    ensures Reaches(links, x, y) || (Reaches(links, x, c) && Reaches(links, p, y))
    decreases n
  {
    if n == 0 {
      ReachesSelf(links, x);
    } else {
      var z :| (x, z) in links + {(c, p)} && Path(links + {(c, p)}, z, y, n - 1);
      PathSplitsAtNewLink(links, c, p, z, y, n - 1);
      if (x, z) in links {
        if Reaches(links, z, y) {
          ReachesAfterLink(links, x, z, y);
        } else {
          ReachesAfterLink(links, x, z, c);
        }
      } else {
        ReachesSelf(links, c);
      }
    }
  }

  /** A new link keeps acyclicity when its head does not already reach its tail. */
  lemma NewLinkStaysAcyclic<T(!new)>(links: set<(T, T)>, c: T, p: T)
    requires Acyclic(links) && !Reaches(links, p, c)
    ensures Acyclic(links + {(c, p)})
  {
    var grown := links + {(c, p)};
    forall x, y | (x, y) in grown ensures !Reaches(grown, y, x) {
      if Reaches(grown, y, x) {
        var n: nat :| Path(grown, y, x, n);
        PathSplitsAtNewLink(links, c, p, y, x, n);
        if (x, y) in links {
          if !Reaches(links, y, x) {
            ReachesAfterLink(links, x, y, c);
            ReachesCompose(links, p, x, c);
          }
        }
      }
    }
  }

  ghost predicate Touches<T(!new)>(links: set<(T, T)>, x: T) {
    exists y :: (x, y) in links || (y, x) in links
  }

  /** Distinct nodes of the relation keep distinct names under `f`. */
  ghost predicate InjectiveOn<T(!new)>(links: set<(T, T)>, f: T -> T) {
    forall u, v :: Touches(links, u) && Touches(links, v) && f(u) == f(v) ==> u == v
  }

  /** Every link of `image` is the renamed copy of a link. */
  ghost predicate IsImage<T(!new)>(links: set<(T, T)>, image: set<(T, T)>, f: T -> T) {
    forall u, v :: (u, v) in image ==> exists a, b :: (a, b) in links && u == f(a) && v == f(b)
  }

  lemma {:induction false} ImagePathComesBack<T(!new)>(links: set<(T, T)>, image: set<(T, T)>, f: T -> T,
                                                      x: T, y: T, n: nat)
    requires IsImage(links, image, f) && InjectiveOn(links, f)
    requires Touches(links, x) && Touches(links, y)
    requires Path(image, f(x), f(y), n)
    ensures Path(links, x, y, n)
    decreases n
  {
    if n > 0 {
      var z :| (f(x), z) in image && Path(image, z, f(y), n - 1);
      var a, b :| (a, b) in links && f(x) == f(a) && z == f(b);
      assert Touches(links, a) && Touches(links, b);
      ImagePathComesBack(links, image, f, b, y, n - 1);
    }
  }

  /** Renaming nodes without collisions keeps acyclicity and single parents. */
  lemma ImageStaysAcyclic<T(!new)>(links: set<(T, T)>, image: set<(T, T)>, f: T -> T)
    requires IsImage(links, image, f) && InjectiveOn(links, f) && Acyclic(links)
    ensures Acyclic(image)
    ensures SingleParent(links) ==> SingleParent(image)
  {
    forall u, v | (u, v) in image ensures !Reaches(image, v, u) {
      var a, b :| (a, b) in links && u == f(a) && v == f(b);
      if Reaches(image, v, u) {
        var n: nat :| Path(image, v, u, n);
        assert Touches(links, a) && Touches(links, b);
        ImagePathComesBack(links, image, f, b, a, n);
      }
    }
    if SingleParent(links) {
      forall u, v, w | (u, v) in image && (u, w) in image ensures v == w {
        var a, b :| (a, b) in links && u == f(a) && v == f(b);
        var a', c :| (a', c) in links && u == f(a') && w == f(c);
        assert Touches(links, a) && Touches(links, a');
      }
    }
  }

  /** A set closed under the links contains everything reachable from it. */
  lemma {:induction false} ClosedSetHoldsPaths<T(!new)>(links: set<(T, T)>, closed: set<T>, x: T, y: T, n: nat)
    requires x in closed && Path(links, x, y, n)
    requires forall u, v :: (u, v) in links && u in closed ==> v in closed
    ensures y in closed
    decreases n
  {
    if n > 0 {
      var z :| (x, z) in links && Path(links, z, y, n - 1);
      ClosedSetHoldsPaths(links, closed, z, y, n - 1);
    }
  }
}
