/**
 * The link data layer: alias generation, the insert and update payloads, and the
 * calls against the remote `links` table.  The table is a sequence of rows held by
 * a `LinkStore`; each call states the filter and the ordering it asks for, and the
 * remote's own failure (network, permissions, constraints) is an input of the call.
 */
module Links {
  import opened Types

  const Alphabet: string := "abcdefghijklmnopqrstuvwxyz0123456789"
  const DefaultAliasLength: int := 6

  /** What `createLink` throws when nobody is signed in. */
  const NotAuthenticated: Thrown := ErrorValue("User not authenticated")

  // ---------------------------------------------------------------------------
  // Alias generation

  /** `s.charAt(k)`: the character at `k`, or "" when `k` is out of range. */
  function CharAt(s: string, k: int): string
  {
    if 0 <= k < |s| then [s[k]] else ""
  }

  /**
   * The alias that the draws `draws` produce, one `charAt` per draw; a draw stands
   * for `Math.floor(Math.random() * chars.length)`.
   */
  function AliasFrom(draws: seq<int>): (alias: string)
    ensures |alias| <= |draws|
    ensures forall i :: 0 <= i < |alias| ==> alias[i] in Alphabet
  {
    if draws == [] then ""
    else AliasFrom(draws[..|draws| - 1]) + CharAt(Alphabet, draws[|draws| - 1])
  }

  /** Every draw indexes the alphabet, as `Math.random() * 36` floored always does. */
  predicate DrawsInRange(draws: seq<int>)
  {
    forall i :: 0 <= i < |draws| ==> 0 <= draws[i] < |Alphabet|
  }

  /** With draws in range, the alias has one character per draw: the one the draw indexes. */
  lemma {:induction false} AliasFromExact(draws: seq<int>)
    requires DrawsInRange(draws)
    ensures |AliasFrom(draws)| == |draws|
    ensures forall i :: 0 <= i < |draws| ==> AliasFrom(draws)[i] == Alphabet[draws[i]]
  {
    if draws != [] {
      var init := draws[..|draws| - 1];
      assert DrawsInRange(init) by {
        forall i | 0 <= i < |init| ensures 0 <= init[i] < |Alphabet| {
          assert init[i] == draws[i];
        }
      }
      AliasFromExact(init);
      var last := draws[|draws| - 1];
      assert CharAt(Alphabet, last) == [Alphabet[last]];
      var a := AliasFrom(init);
      assert AliasFrom(draws) == a + [Alphabet[last]];
      forall i | 0 <= i < |draws|
        ensures AliasFrom(draws)[i] == Alphabet[draws[i]]
      {
        if i < |init| {
          assert (a + [Alphabet[last]])[i] == a[i];
          assert init[i] == draws[i];
        }
      }
    }
  }

  function Max0(n: int): nat
  {
    if n < 0 then 0 else n
  }

  /** One more draw appends the character it picks. */
  lemma AliasFromStep(draws: seq<int>, i: int)
    requires 0 <= i < |draws|
    ensures AliasFrom(draws[..i + 1]) == AliasFrom(draws[..i]) + CharAt(Alphabet, draws[i])
  {
    assert draws[..i + 1][..i] == draws[..i];
  }

  /** With draws in range, the first `n` draws give an alias of length `n`. */
  lemma AliasFromPrefixLength(draws: seq<int>, n: int)
    requires DrawsInRange(draws) && 0 <= n <= |draws|
    ensures |AliasFrom(draws[..n])| == n
  {
    assert DrawsInRange(draws[..n]) by {
      forall k | 0 <= k < n ensures 0 <= draws[..n][k] < |Alphabet| {
        assert draws[..n][k] == draws[k];
      }
    }
    AliasFromExact(draws[..n]);
  }

  /**
   * `generateAlias(length)`: appends one drawn character per iteration; a length
   * below one runs no iteration.
   */
  method GenerateAlias(length: int, draws: seq<int>) returns (result: string)
    requires Max0(length) <= |draws|
    ensures result == AliasFrom(draws[..Max0(length)])
    ensures DrawsInRange(draws) ==> |result| == Max0(length)
    ensures forall i :: 0 <= i < |result| ==> result[i] in Alphabet
  {
    result := "";
    var i := 0;
    while i < length
      invariant 0 <= i <= Max0(length)
      invariant result == AliasFrom(draws[..i])
    {
      AliasFromStep(draws, i);
      result := result + CharAt(Alphabet, draws[i]);
      i := i + 1;
    }
    if DrawsInRange(draws) {
      AliasFromPrefixLength(draws, i);
    }
  }

  // ---------------------------------------------------------------------------
  // Payloads

  datatype CreateLinkData = CreateLinkData(originalUrl: string, alias: Option<string>)

  datatype UpdateLinkData = UpdateLinkData(originalUrl: Option<string>, alias: Option<string>)

  /** `linkData.alias || generateAlias()`: a supplied alias wins unless it is absent or empty. */
  function ChooseAlias(supplied: Option<string>, generated: string): (alias: string)
    ensures Truthy(supplied) ==> alias == supplied.value
    ensures !Truthy(supplied) ==> alias == generated
    ensures alias == "" ==> generated == ""
  {
    if Truthy(supplied) then supplied.value else generated
  }

  /** The object `createLink` passes to `insert`. */
  datatype InsertPayload = InsertPayload(userId: string, originalUrl: string, alias: string, visitCount: int)

  function NewLinkPayload(userId: string, data: CreateLinkData, generated: string): (p: InsertPayload)
    ensures p.userId == userId && p.originalUrl == data.originalUrl && p.visitCount == 0
    ensures p.alias == ChooseAlias(data.alias, generated)
  {
    InsertPayload(userId, data.originalUrl, ChooseAlias(data.alias, generated), 0)
  }

  /** The row the table holds after an insert: the table assigns the id and both timestamps. */
  function InsertedRow(p: InsertPayload, id: string, now: Instant): (row: Link)
    ensures row.id == id && row.createdAt == now && row.updatedAt == now
    ensures row.userId == p.userId && row.originalUrl == p.originalUrl
    ensures row.alias == p.alias && row.visitCount == p.visitCount
  {
    Link(id, p.userId, p.originalUrl, p.alias, p.visitCount, now, now)
  }

  /** The object `updateLink` passes to `update`: the supplied fields, plus `updated_at`. */
  datatype UpdatePayload = UpdatePayload(originalUrl: Option<string>, alias: Option<string>, updatedAt: Instant)

  /** A row after an update: supplied fields are written, omitted fields are kept. */
  function ApplyUpdate(row: Link, p: UpdatePayload): (r: Link)
    ensures r.originalUrl == (if p.originalUrl.Some? then p.originalUrl.value else row.originalUrl)
    ensures r.alias == (if p.alias.Some? then p.alias.value else row.alias)
    ensures r.updatedAt == p.updatedAt
    ensures r.id == row.id && r.userId == row.userId
    ensures r.visitCount == row.visitCount && r.createdAt == row.createdAt
  {
    var withUrl := if p.originalUrl.Some? then row.(originalUrl := p.originalUrl.value) else row;
    var withAlias := if p.alias.Some? then withUrl.(alias := p.alias.value) else withUrl;
    withAlias.(updatedAt := p.updatedAt)
  }

  /** `{ ...linkData, updated_at: now }`: the supplied fields, plus the time of the update. */
  function UpdatePayloadOf(data: UpdateLinkData, now: Instant): (p: UpdatePayload)
    ensures p.updatedAt == now
    ensures forall row ::
      ApplyUpdate(row, p).originalUrl == (if data.originalUrl.Some? then data.originalUrl.value else row.originalUrl) &&
      ApplyUpdate(row, p).alias == (if data.alias.Some? then data.alias.value else row.alias)
    ensures data.originalUrl.None? && data.alias.None? ==>
      forall row :: ApplyUpdate(row, p) == row.(updatedAt := now)
  {
    UpdatePayload(data.originalUrl, data.alias, now)
  }

  // ---------------------------------------------------------------------------
  // Queries

  datatype Column = IdColumn | AliasColumn

  /** A `.eq(column, value)` or `.neq(column, value)` filter. */
  datatype Filter = Eq(column: Column, value: string) | Neq(column: Column, value: string)

  function ColumnValue(row: Link, c: Column): string
  {
    match c
    case IdColumn => row.id
    case AliasColumn => row.alias
  }

  predicate Satisfies(row: Link, f: Filter)
  {
    match f
    case Eq(c, v) => ColumnValue(row, c) == v
    case Neq(c, v) => ColumnValue(row, c) != v
  }

  predicate SatisfiesAll(row: Link, filters: seq<Filter>)
  {
    forall i :: 0 <= i < |filters| ==> Satisfies(row, filters[i])
  }

  /** The rows a select with `filters` returns, in table order. */
  function Select(rows: seq<Link>, filters: seq<Filter>): (r: seq<Link>)
    ensures |r| <= |rows|
    ensures forall x :: x in r <==> x in rows && SatisfiesAll(x, filters)
  {
    if rows == [] then []
    else (if SatisfiesAll(rows[0], filters) then [rows[0]] else []) + Select(rows[1..], filters)
  }

  /** The rows a delete with filter `f` leaves, in table order. */
  function Remaining(rows: seq<Link>, f: Filter): (r: seq<Link>)
    ensures |r| <= |rows|
    ensures forall x :: x in r <==> x in rows && !Satisfies(x, f)
  {
    if rows == [] then []
    else (if Satisfies(rows[0], f) then [] else [rows[0]]) + Remaining(rows[1..], f)
  }

  /** The rows after an update with filter `f`: the matching rows get the payload. */
  function UpdateWhere(rows: seq<Link>, f: Filter, p: UpdatePayload): (r: seq<Link>)
    ensures |r| == |rows|
    ensures forall i :: 0 <= i < |rows| ==> r[i].id == rows[i].id
  {
    seq(|rows|, i requires 0 <= i < |rows| =>
      if Satisfies(rows[i], f) then ApplyUpdate(rows[i], p) else rows[i])
  }

  /** Rows ordered by `created_at`, newest first. */
  predicate NewestFirst(s: seq<Link>)
  {
    forall i, j :: 0 <= i < j < |s| ==> NotAfter(s[j].createdAt, s[i].createdAt)
  }

  function InsertNewestFirst(x: Link, s: seq<Link>): seq<Link>
  {
    if s == [] || NotAfter(s[0].createdAt, x.createdAt) then [x] + s
    else [s[0]] + InsertNewestFirst(x, s[1..])
  }

  lemma NotAfterTransitive(a: Instant, b: Instant, c: Instant)
    requires NotAfter(a, b) && NotAfter(b, c)
    ensures NotAfter(a, c)
  {
  }

  /** Inserting adds exactly `x` to the rows. */
  lemma {:induction false} InsertNewestFirstPermutes(x: Link, s: seq<Link>)
    ensures multiset(InsertNewestFirst(x, s)) == multiset(s) + multiset{x}
  {
    if s != [] && !NotAfter(s[0].createdAt, x.createdAt) {
      InsertNewestFirstPermutes(x, s[1..]);
      assert s == [s[0]] + s[1..];
    }
  }

  /** Dropping the newest row keeps the rest newest first. */
  lemma NewestFirstTail(s: seq<Link>)
    requires s != [] && NewestFirst(s)
    ensures NewestFirst(s[1..])
  {
    var tail := s[1..];
    forall i, j | 0 <= i < j < |tail| ensures NotAfter(tail[j].createdAt, tail[i].createdAt) {
      assert tail[j] == s[j + 1] && tail[i] == s[i + 1];
    }
  }

  /** A row no older than every row of a newest-first sequence can go in front of it. */
  lemma NewestFirstCons(h: Link, t: seq<Link>)
    requires NewestFirst(t)
    requires forall k :: 0 <= k < |t| ==> NotAfter(t[k].createdAt, h.createdAt)
    ensures NewestFirst([h] + t)
  {
    var r := [h] + t;
    forall i, j | 0 <= i < j < |r| ensures NotAfter(r[j].createdAt, r[i].createdAt) {
      assert r[j] == t[j - 1];
      if i > 0 {
        assert r[i] == t[i - 1];
      }
    }
  }

  /** In a newest-first sequence, the first row is no older than any other. */
  lemma HeadIsNewest(s: seq<Link>)
    requires s != [] && NewestFirst(s)
    ensures forall k :: 0 <= k < |s| ==> NotAfter(s[k].createdAt, s[0].createdAt)
  {
    forall k | 0 <= k < |s| ensures NotAfter(s[k].createdAt, s[0].createdAt) {
      if k == 0 {
        assert NotAfter(s[0].createdAt, s[0].createdAt);
      }
    }
  }

  /** Every row of an insertion into `t` is `x` or a row of `t`. */
  lemma InsertNewestFirstFrom(x: Link, t: seq<Link>, y: Link)
    requires y in InsertNewestFirst(x, t)
    ensures y == x || y in t
  {
    InsertNewestFirstPermutes(x, t);
    assert y in multiset(InsertNewestFirst(x, t));
  }

  /** Inserting into a newest-first sequence keeps it newest first. */
  lemma {:induction false} InsertNewestFirstSorted(x: Link, s: seq<Link>)
    requires NewestFirst(s)
    ensures NewestFirst(InsertNewestFirst(x, s))
  {
    if s == [] {
    } else if NotAfter(s[0].createdAt, x.createdAt) {
      HeadIsNewest(s);
      forall k | 0 <= k < |s| ensures NotAfter(s[k].createdAt, x.createdAt) {
        NotAfterTransitive(s[k].createdAt, s[0].createdAt, x.createdAt);
      }
      NewestFirstCons(x, s);
    } else {
      var tail := s[1..];
      var rest := InsertNewestFirst(x, tail);
      NewestFirstTail(s);
      InsertNewestFirstSorted(x, tail);
      HeadIsNewest(s);
      forall k | 0 <= k < |rest| ensures NotAfter(rest[k].createdAt, s[0].createdAt) {
        InsertNewestFirstFrom(x, tail, rest[k]);
      }
      NewestFirstCons(s[0], rest);
    }
  }

  /** What `.order("created_at", { ascending: false })` returns: the rows, newest first. */
  function OrderNewestFirst(rows: seq<Link>): (r: seq<Link>)
    ensures NewestFirst(r)
    ensures multiset(r) == multiset(rows)
  {
    if rows == [] then []
    else
      var rest := OrderNewestFirst(rows[1..]);
      InsertNewestFirstSorted(rows[0], rest);
      InsertNewestFirstPermutes(rows[0], rest);
      assert rows == [rows[0]] + rows[1..];
      InsertNewestFirst(rows[0], rest)
  }

  /** The remote's answer to a select of many rows. */
  datatype Reply = Rows | NullData | Failed(thrown: Thrown)

  /** What `getLinks` settles with, given the rows the session can see. */
  function Listing(rows: seq<Link>, reply: Reply): (r: Result<seq<Link>>)
    ensures r.Throws? <==> reply.Failed?
    ensures reply.Failed? ==> r.thrown == reply.thrown
    ensures reply.NullData? ==> r.value == []
    ensures reply.Rows? ==> NewestFirst(r.value) && multiset(r.value) == multiset(rows)
  {
    match reply
    case Failed(e) => Throws(e)
    case NullData => Ok([])
    case Rows => Ok(OrderNewestFirst(rows))
  }

  predicate IdsDistinct(rows: seq<Link>)
  {
    forall i, j :: 0 <= i < |rows| && 0 <= j < |rows| && rows[i].id == rows[j].id ==> i == j
  }

  predicate HasId(rows: seq<Link>, id: string)
  {
    exists i :: 0 <= i < |rows| && rows[i].id == id
  }

  /** Some row other than the excluded one carries `alias`. */
  predicate AliasTaken(rows: seq<Link>, alias: string, excludeId: Option<string>)
  {
    exists x :: x in rows && x.alias == alias && !(Truthy(excludeId) && x.id == excludeId.value)
  }

  /** With distinct ids, a select by id returns one row when the id is present and none otherwise. */
  lemma {:induction false} SelectByIdCount(rows: seq<Link>, id: string)
    requires IdsDistinct(rows)
    ensures |Select(rows, [Eq(IdColumn, id)])| == if HasId(rows, id) then 1 else 0
  {
    if rows != [] {
      var rest := rows[1..];
      assert IdsDistinct(rest) by {
        forall i, j | 0 <= i < |rest| && 0 <= j < |rest| && rest[i].id == rest[j].id ensures i == j {
          assert rows[i + 1].id == rows[j + 1].id;
        }
      }
      SelectByIdCount(rest, id);
      if rows[0].id == id {
        assert !HasId(rest, id) by {
          forall i | 0 <= i < |rest| ensures rest[i].id != id {
            assert rows[i + 1].id == rest[i].id;
          }
        }
        assert SatisfiesAll(rows[0], [Eq(IdColumn, id)]);
      } else {
        assert !SatisfiesAll(rows[0], [Eq(IdColumn, id)]) by {
          assert !Satisfies(rows[0], [Eq(IdColumn, id)][0]);
        }
        assert HasId(rows, id) ==> HasId(rest, id) by {
          if HasId(rows, id) {
            var i :| 0 <= i < |rows| && rows[i].id == id;
            assert rest[i - 1].id == id;
          }
        }
        assert HasId(rest, id) ==> HasId(rows, id) by {
          if HasId(rest, id) {
            var i :| 0 <= i < |rest| && rest[i].id == id;
            assert rows[i + 1].id == id;
          }
        }
      }
    }
  }

  lemma IdsDistinctTail(rows: seq<Link>)
    requires rows != [] && IdsDistinct(rows)
    ensures IdsDistinct(rows[1..])
    ensures forall k :: 1 <= k < |rows| ==> rows[k].id != rows[0].id
  {
    var rest := rows[1..];
    forall i, j | 0 <= i < |rest| && 0 <= j < |rest| && rest[i].id == rest[j].id ensures i == j {
      assert rows[i + 1].id == rows[j + 1].id;
    }
  }

  lemma IdsDistinctCons(h: Link, t: seq<Link>)
    requires IdsDistinct(t)
    requires forall y :: y in t ==> y.id != h.id
    ensures IdsDistinct([h] + t)
  {
    var r := [h] + t;
    forall k | 0 < k < |r| ensures r[k] == t[k - 1] && r[k].id != h.id {
      assert t[k - 1] in t;
    }
  }

  lemma {:induction false} RemainingKeepsIdsDistinct(rows: seq<Link>, f: Filter)
    requires IdsDistinct(rows)
    ensures IdsDistinct(Remaining(rows, f))
  {
    if rows != [] {
      var rest := rows[1..];
      IdsDistinctTail(rows);
      RemainingKeepsIdsDistinct(rest, f);
      var tail := Remaining(rest, f);
      forall y | y in tail ensures y.id != rows[0].id {
        var k :| 0 <= k < |rest| && rest[k] == y;
        assert rows[k + 1] == y;
      }
      if !Satisfies(rows[0], f) {
        IdsDistinctCons(rows[0], tail);
      }
    }
  }

  /** After a delete by id, no row with that id is left: a later `getLinkById` cannot find it. */
  lemma DeletedIdIsGone(rows: seq<Link>, id: string)
    ensures !HasId(Remaining(rows, Eq(IdColumn, id)), id)
  {
    var r := Remaining(rows, Eq(IdColumn, id));
    forall i | 0 <= i < |r| ensures r[i].id != id {
      assert r[i] in r;
    }
  }

  /** A row inserted with an alias makes that alias taken for every exclusion but its own id. */
  lemma InsertedAliasIsTaken(rows: seq<Link>, p: InsertPayload, id: string, now: Instant, excludeId: Option<string>)
    requires !(Truthy(excludeId) && excludeId.value == id)
    ensures AliasTaken(rows + [InsertedRow(p, id, now)], p.alias, excludeId)
  {
    var row := InsertedRow(p, id, now);
    assert row in rows + [row];
  }

  // ---------------------------------------------------------------------------
  // The remote table, as this session sees it

  class LinkStore {
    /** The rows of `links` that the session may see. */
    var rows: seq<Link>
    /** The id of the signed-in user, if any. */
    var user: Option<string>

    ghost predicate Valid()
      reads this
    {
      IdsDistinct(rows)
    }

    constructor (rows: seq<Link>, user: Option<string>)
      requires IdsDistinct(rows)
      ensures Valid()
      ensures this.rows == rows && this.user == user
    {
      this.rows := rows;
      this.user := user;
    }

    /** `getLinks`: all rows, newest first; a failed select is rethrown, no data reads as []. */
    method GetLinks(reply: Reply) returns (r: Result<seq<Link>>)
      ensures r == Listing(rows, reply)
    {
      r := Listing(rows, reply);
    }

    /**
     * `getLinkById`: the one row with `id`; `.single()` rejects when there is none, with
     * `noRow`, the value the client library reports that rejection as (an `Error` or not).
     */
    method GetLinkById(id: string, fault: Option<Thrown>, noRow: Thrown) returns (r: Result<Link>)
      requires Valid()
      ensures fault.Some? ==> r == Throws(fault.value)
      ensures fault.None? && HasId(rows, id) ==> r.Ok? && r.value in rows && r.value.id == id
      ensures fault.None? && !HasId(rows, id) ==> r == Throws(noRow)
    {
      var data := Select(rows, [Eq(IdColumn, id)]);
      if fault.Some? {
        r := Throws(fault.value);
        return;
      }
      SelectByIdCount(rows, id);
      if |data| != 1 {
        r := Throws(noRow);
        return;
      }
      assert data[0] in data;
      assert Satisfies(data[0], [Eq(IdColumn, id)][0]);
      r := Ok(data[0]);
    }

    /**
     * `createLink`: requires a signed-in user, chooses the alias, and inserts the
     * payload; a failed insert is rethrown and writes nothing.
     */
    method CreateLink(data: CreateLinkData, draws: seq<int>, newId: string, now: Instant, fault: Option<Thrown>)
      returns (r: Result<Link>)
      requires Valid()
      requires DefaultAliasLength <= |draws|
      requires !HasId(rows, newId)
      modifies this`rows
      ensures Valid()
      ensures user.None? ==> r == Throws(NotAuthenticated) && rows == old(rows)
      ensures user.Some? && fault.Some? ==> r == Throws(fault.value) && rows == old(rows)
      ensures user.Some? && fault.None? ==>
        var row := InsertedRow(NewLinkPayload(user.value, data, AliasFrom(draws[..DefaultAliasLength])), newId, now);
        r == Ok(row) && rows == old(rows) + [row]
    {
      if user.None? {
        r := Throws(NotAuthenticated);
        return;
      }
      var alias: string;
      if Truthy(data.alias) {
        alias := data.alias.value;
      } else {
        alias := GenerateAlias(DefaultAliasLength, draws);
      }
      var payload := InsertPayload(user.value, data.originalUrl, alias, 0);
      if fault.Some? {
        r := Throws(fault.value);
        return;
      }
      var row := InsertedRow(payload, newId, now);
      rows := rows + [row];
      r := Ok(row);
    }

    /**
     * `updateLink`: writes the payload to the row whose id matches; `.single()`
     * rejects with `noRow` when no row matches, and a failed update is rethrown.
     */
    method UpdateLink(id: string, data: UpdateLinkData, now: Instant, fault: Option<Thrown>, noRow: Thrown)
      returns (r: Result<Link>)
      requires Valid()
      modifies this`rows
      ensures Valid()
      ensures fault.Some? ==> r == Throws(fault.value) && rows == old(rows)
      ensures fault.None? && !HasId(old(rows), id) ==> r == Throws(noRow) && rows == old(rows)
      ensures fault.None? && HasId(old(rows), id) ==>
        rows == UpdateWhere(old(rows), Eq(IdColumn, id), UpdatePayloadOf(data, now)) &&
        forall i :: 0 <= i < |old(rows)| && old(rows)[i].id == id ==>
          r == Ok(ApplyUpdate(old(rows)[i], UpdatePayloadOf(data, now)))
    {
      if fault.Some? {
        r := Throws(fault.value);
        return;
      }
      var filter := Eq(IdColumn, id);
      var payload := UpdatePayloadOf(data, now);
      var matched := Select(rows, [filter]);
      SelectByIdCount(rows, id);
      if |matched| != 1 {
        r := Throws(noRow);
        return;
      }
      assert matched[0] in matched;
      assert Satisfies(matched[0], [filter][0]);
      ghost var before := rows;
      rows := UpdateWhere(rows, filter, payload);
      r := Ok(ApplyUpdate(matched[0], payload));
      forall i | 0 <= i < |before| && before[i].id == id
        ensures before[i] == matched[0]
      {
        var k :| 0 <= k < |before| && before[k] == matched[0];
      }
    }

    /** `deleteLink`: removes every row whose id matches; a failed delete is rethrown. */
    method DeleteLink(id: string, fault: Option<Thrown>) returns (r: Result<()>)
      requires Valid()
      modifies this`rows
      ensures Valid()
      ensures fault.Some? ==> r == Throws(fault.value) && rows == old(rows)
      ensures fault.None? ==> r == Ok(()) && rows == Remaining(old(rows), Eq(IdColumn, id))
    {
      if fault.Some? {
        r := Throws(fault.value);
        return;
      }
      RemainingKeepsIdsDistinct(rows, Eq(IdColumn, id));
      rows := Remaining(rows, Eq(IdColumn, id));
      r := Ok(());
    }

    /**
     * `isAliasAvailable`: selects the rows with `alias`, leaving out `excludeId` only
     * when it is truthy; true exactly when that select is empty.
     */
    method IsAliasAvailable(alias: string, excludeId: Option<string>, reply: Reply) returns (r: Result<bool>)
      ensures reply.Failed? ==> r == Throws(reply.thrown)
      ensures reply.NullData? ==> r == Ok(true)
      ensures reply.Rows? ==> r.Ok? && (r.value <==> !AliasTaken(rows, alias, excludeId))
    {
      var query := [Eq(AliasColumn, alias)];
      if Truthy(excludeId) {
        query := query + [Neq(IdColumn, excludeId.value)];
      }
      if reply.Failed? {
        r := Throws(reply.thrown);
        return;
      }
      if reply.NullData? {
        r := Ok(true);
        return;
      }
      var data := Select(rows, query);
      forall x | x in rows
        ensures SatisfiesAll(x, query) <==> x.alias == alias && !(Truthy(excludeId) && x.id == excludeId.value)
      {
        assert Satisfies(x, query[0]) <==> x.alias == alias;
        if Truthy(excludeId) {
          assert Satisfies(x, query[1]) <==> x.id != excludeId.value;
        }
      }
      if |data| > 0 {
        assert data[0] in data;
      }
      r := Ok(|data| == 0);
    }
  }
}
