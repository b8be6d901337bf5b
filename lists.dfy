/**
 * Watchlist and Favorito tables (backend/core/models/listas.py). Each table
 * is a sequence of (utilizador, filme) entries, newest first: an insert
 * prepends, so position stands for the `-created_at` ordering.
 */
module Lists {
  import opened Models

  datatype ListEntry = ListEntry(utilizador: UserId, filme: FilmeId)

  /** The unique_together constraint on (utilizador, filme). */
  predicate NoDuplicates(s: seq<ListEntry>)
  {
    forall i, j :: 0 <= i < j < |s| ==> s[i] != s[j]
  }

  /** The pairs stored in a table, ignoring order. */
  function Pairs(s: seq<ListEntry>): set<ListEntry>
  {
    set e | e in s
  }

  /** The table with entry e deleted. */
  function Without(s: seq<ListEntry>, e: ListEntry): (r: seq<ListEntry>)
    ensures forall x :: x in r <==> x in s && x != e
    ensures |r| <= |s|
  {
    if s == [] then []
    else if s[0] == e then Without(s[1..], e)
    else [s[0]] + Without(s[1..], e)
  }

  /** Deleting keeps the remaining entries in their order and unique. */
  lemma {:induction false} WithoutKeepsUnique(s: seq<ListEntry>, e: ListEntry)
    requires NoDuplicates(s)
    ensures NoDuplicates(Without(s, e))
  {
    if s != [] {
      assert NoDuplicates(s[1..]) by {
        forall i, j | 0 <= i < j < |s[1..]| ensures s[1..][i] != s[1..][j] {
          assert s[1..][i] == s[i + 1] && s[1..][j] == s[j + 1];
        }
      }
      WithoutKeepsUnique(s[1..], e);
      if s[0] != e {
        var t := Without(s[1..], e);
        assert s[0] !in t;
        forall i, j | 0 <= i < j < |[s[0]] + t| ensures ([s[0]] + t)[i] != ([s[0]] + t)[j] {
          if i == 0 {
            assert ([s[0]] + t)[j] == t[j - 1];
          } else {
            assert ([s[0]] + t)[i] == t[i - 1] && ([s[0]] + t)[j] == t[j - 1];
          }
        }
      }
    }
  }

  /** Deleting an entry that is absent changes nothing. */
  lemma {:induction false} WithoutAbsent(s: seq<ListEntry>, e: ListEntry)
    requires e !in s
    ensures Without(s, e) == s
  {
    if s != [] {
      assert e !in s[1..];
      WithoutAbsent(s[1..], e);
    }
  }

  /**
   * One get_or_create-then-delete step of toggle_watchlist/toggle_favorite:
   * an absent pair is inserted (newest first), a present one deleted.
   */
  function Toggle(s: seq<ListEntry>, e: ListEntry): (r: seq<ListEntry>)
    ensures e in r <==> e !in s
    ensures Pairs(r) == if e in s then Pairs(s) - {e} else Pairs(s) + {e}
  {
    if e in s then Without(s, e) else [e] + s
  }

  /** A toggle keeps the table free of duplicate pairs. */
  lemma ToggleKeepsUnique(s: seq<ListEntry>, e: ListEntry)
    requires NoDuplicates(s)
    ensures NoDuplicates(Toggle(s, e))
  {
    if e in s {
      WithoutKeepsUnique(s, e);
    } else {
      var r := [e] + s;
      forall i, j | 0 <= i < j < |r| ensures r[i] != r[j] {
        assert r[j] == s[j - 1];
        if i > 0 { assert r[i] == s[i - 1]; }
      }
    }
  }

  /** Two toggles of the same pair restore the set of stored pairs. */
  lemma ToggleTwiceRestoresPairs(s: seq<ListEntry>, e: ListEntry)
    ensures Pairs(Toggle(Toggle(s, e), e)) == Pairs(s)
  {
  }

  /** Starting from an absent pair, two toggles restore the table exactly, order included. */
  lemma ToggleTwiceFromAbsent(s: seq<ListEntry>, e: ListEntry)
    requires e !in s
    ensures Toggle(Toggle(s, e), e) == s
  {
    WithoutAbsent(s, e);
  }

  /** A toggle leaves every other pair where it was, as to membership. */
  lemma ToggleOnlyTouchesItsPair(s: seq<ListEntry>, e: ListEntry, x: ListEntry)
    requires x != e
    ensures x in Toggle(s, e) <==> x in s
  {
  }

  /**
   * get_queryset of WatchlistViewSet/FavoritoViewSet: the movies of the
   * requesting user's entries, newest first.
   */
  function EntriesOf(s: seq<ListEntry>, u: UserId): (r: seq<FilmeId>)
    ensures forall f :: f in r <==> ListEntry(u, f) in s
    ensures |r| <= |s|
  {
    if s == [] then []
    else if s[0].utilizador == u then [s[0].filme] + EntriesOf(s[1..], u)
    else EntriesOf(s[1..], u)
  }

  /** The row a cascade delete removes: a user or a movie. */
  datatype Deleted = DeletedUser(u: UserId) | DeletedFilme(f: FilmeId)

  predicate References(e: ListEntry, d: Deleted)
  {
    match d
    case DeletedUser(u) => e.utilizador == u
    case DeletedFilme(f) => e.filme == f
  }

  /** on_delete=CASCADE: the entries that do not reference the deleted row, in order. */
  function CascadeDrop(s: seq<ListEntry>, d: Deleted): (r: seq<ListEntry>)
    ensures forall x :: x in r <==> x in s && !References(x, d)
  {
    if s == [] then []
    else if References(s[0], d) then CascadeDrop(s[1..], d)
    else [s[0]] + CascadeDrop(s[1..], d)
  }

  /** A cascade delete keeps the table free of duplicate pairs. */
  lemma {:induction false} CascadeKeepsUnique(s: seq<ListEntry>, d: Deleted)
    requires NoDuplicates(s)
    ensures NoDuplicates(CascadeDrop(s, d))
  {
    if s != [] {
      assert NoDuplicates(s[1..]) by {
        forall i, j | 0 <= i < j < |s[1..]| ensures s[1..][i] != s[1..][j] {
          assert s[1..][i] == s[i + 1] && s[1..][j] == s[j + 1];
        }
      }
      CascadeKeepsUnique(s[1..], d);
      if !References(s[0], d) {
        var t := CascadeDrop(s[1..], d);
        assert s[0] !in t;
        forall i, j | 0 <= i < j < |[s[0]] + t| ensures ([s[0]] + t)[i] != ([s[0]] + t)[j] {
          if i == 0 {
            assert ([s[0]] + t)[j] == t[j - 1];
          } else {
            assert ([s[0]] + t)[i] == t[i - 1] && ([s[0]] + t)[j] == t[j - 1];
          }
        }
      }
    }
  }
}
