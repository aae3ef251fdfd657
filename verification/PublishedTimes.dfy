/**
 Per-version published times and their three writers: update carries them forward,
 discover re-stamps changed tags, and the one-off backfill fills them in.
 */
module PublishedTimes {
  import opened Text
  import opened Version
  import opened SvnLog

  /** A stored time: formatting cuts an instant to whole seconds. */
  type Stamp = int

  const SECOND := 1_000_000_000

  function StampOf(t: Instant): Stamp {
    t / SECOND
  }

  /** The stamp of an instant is the second it falls into. */
  lemma StampIsSecond(t: Instant)
    ensures StampOf(t) * 1_000_000_000 <= t < (StampOf(t) + 1) * 1_000_000_000
  {}

  lemma StampsAreMonotone(a: Instant, b: Instant)
    requires a <= b
    ensures StampOf(a) <= StampOf(b)
  {}

  /** published_times_json: NULL, not a JSON map of strings, or a map from version to time. */
  datatype StoredTimes = Null | Unreadable | Readable(times: map<string, Stamp>)

  /** A row of the packages table, as far as published times need it. */
  datatype Row = Row(versions: map<string, string>, times: StoredTimes, closed: bool)

  // ----- Update -----

  /** Times carried forward to a new version set: known versions keep theirs, new ones get now. */
  function Merged(newVersions: set<string>, hadVersions: bool, stored: StoredTimes, now: Instant): StoredTimes {
    if stored.Null? && hadVersions then Null
    else
      Readable(WithNew(if stored.Readable? then stored.times else map[], newVersions, StampOf(now)))
  }

  /** The times with a stamp for every listed version that has none; the trunk gets none. */
  function WithNew(times: map<string, Stamp>, versions: set<string>, stamp: Stamp): map<string, Stamp> {
    map v | v in times.Keys + (versions - {TRUNK}) :: if v in times then times[v] else stamp
  }

  lemma WithOneMore(times: map<string, Stamp>, versions: set<string>, stamp: Stamp, v: string)
    ensures var before := WithNew(times, versions, stamp);
            WithNew(times, versions + {v}, stamp) ==
            if v != TRUNK && v !in before then before[v := stamp] else before
  {}

  method MergePublishedTimes(
    newVersions: map<string, string>, oldVersions: map<string, string>, stored: StoredTimes, now: Instant)
    returns (result: StoredTimes)
    ensures result == Merged(newVersions.Keys, oldVersions != map[], stored, now)
  {
    if stored == Null && oldVersions != map[] { return Null; }
    var times: map<string, Stamp> := map[];
    if stored.Readable? { times := stored.times; }
    ghost var before, done: set<string> := times, {};
    var stamp := StampOf(now);
    var todo := newVersions.Keys;
    while todo != {}
      invariant done + todo == newVersions.Keys && times == WithNew(before, done, stamp)
      decreases todo
    {
      var v :| v in todo;
      WithOneMore(before, done, stamp, v);
      todo, done := todo - {v}, done + {v};
      if v != TRUNK && v !in times { times := times[v := stamp]; }
    }
    assert done == newVersions.Keys;
    result := Readable(times);
  }

  /**
   What update stores: a row with versions but no times waits for the backfill; in any
   other, known versions keep their time, and the versions listed for the first time get
   the second of now, the trunk excepted.
   */
  lemma MergedMeans(versions: set<string>, hadVersions: bool, stored: StoredTimes, now: Instant)
    ensures var merged := Merged(versions, hadVersions, stored, now);
            if stored == Null && hadVersions then merged == Null
            else
              var known: set<string> := if stored.Readable? then stored.times.Keys else {};
              && merged.Readable?
              && merged.times.Keys == known + (versions - {"dev-trunk"})
              && forall v :: v in merged.times ==>
                   if v in known then merged.times[v] == stored.times[v]
                   else merged.times[v] * 1_000_000_000 <= now < (merged.times[v] + 1) * 1_000_000_000
  {
    StampIsSecond(now);
  }

  // ----- Discover -----

  /** The versions that tags normalize to. */
  function ResetKeys(tags: set<string>): set<string> {
    set tag | tag in tags && Normalize(tag) != "" && Normalize(tag) != TRUNK :: Normalize(tag)
  }

  predicate IsReset(key: string, resetAll: bool, toReset: set<string>) {
    resetAll || Normalize(key) in toReset
  }

  /** Times after a reset: those hit and earlier than the stamp are raised to it. */
  function ResetTimes(times: map<string, Stamp>, resetAll: bool, toReset: set<string>, stamp: Stamp): map<string, Stamp> {
    Raise(times, HitKeys(times.Keys, resetAll, toReset), stamp)
  }

  function HitKeys(keys: set<string>, resetAll: bool, toReset: set<string>): set<string> {
    set k | k in keys && IsReset(k, resetAll, toReset)
  }

  function Raise(times: map<string, Stamp>, hits: set<string>, stamp: Stamp): map<string, Stamp> {
    map k | k in times :: if k in hits && times[k] < stamp then stamp else times[k]
  }

  function TagsOf(tags: map<string, map<string, Instant>>, slug: string): set<string> {
    if slug in tags then tags[slug].Keys else {}
  }

  function ResetRow(row: Row, resetAll: bool, tags: set<string>, stamp: Stamp): Row {
    if row.closed || !row.times.Readable? then row
    else row.(times := Readable(ResetTimes(row.times.times, resetAll, ResetKeys(tags), stamp)))
  }

  function ResetRows(rows: map<string, Row>, changes: TagChangeSet, stamp: Stamp): map<string, Row> {
    map slug | slug in rows :: ResetRow(rows[slug], slug in changes.all, TagsOf(changes.tags, slug), stamp)
  }

  // ----- Backfill -----

  /** The dates of the tags that give the version. */
  ghost function VersionDates(tags: map<string, Instant>, version: string): set<Instant> {
    set tag | tag in tags && Normalize(tag) == version && version != "" :: tags[tag]
  }

  /** The candidates for a backfilled time; Go's zero time stands in where a map has no entry. */
  ghost function BackfillDates(
    tags: map<string, Instant>, all: Option<Instant>, baseline: Instant, version: string): set<Instant>
  {
    {baseline, ZERO} + VersionDates(tags, version) + if all.Some? then {all.value} else {}
  }

  /** Every version but the trunk gets the latest of the candidates for it. */
  ghost function BackfilledTimes(
    versions: set<string>, tags: map<string, Instant>, all: Option<Instant>, baseline: Instant): map<string, Stamp>
  {
    map v | v in versions - {TRUNK} :: BackfilledStamp(tags, all, baseline, v)
  }

  ghost function TagDatesOf(tags: map<string, map<string, Instant>>, slug: string): map<string, Instant> {
    if slug in tags then tags[slug] else map[]
  }

  ghost function BackfilledRow(row: Row, slug: string, changes: TagChangeSet, baseline: Instant): Row {
    if !row.times.Null? then row
    else row.(times := Readable(
                BackfilledTimes(row.versions.Keys, TagDatesOf(changes.tags, slug), Lookup(changes.all, slug), baseline)))
  }

  ghost function BackfilledRows(rows: map<string, Row>, changes: TagChangeSet, baseline: Instant): map<string, Row> {
    map slug | slug in rows :: BackfilledRow(rows[slug], slug, changes, baseline)
  }

  /** A date that a version's time may come from: a tag that gives it, all tags at once, the baseline, or no date. */
  ghost predicate IsCandidate(
    tags: map<string, Instant>, all: Option<Instant>, baseline: Instant, v: string, d: Instant)
  {
    || d == baseline || d == 0 || (all.Some? && d == all.value)
    || exists tag :: tag in tags && tags[tag] == d && Normalize(tag) == Normalize(v) && Normalize(v) != ""
  }

  lemma CandidateIff(tags: map<string, Instant>, all: Option<Instant>, baseline: Instant, v: string, d: Instant)
    ensures IsCandidate(tags, all, baseline, v, d) <==> d in BackfillDates(tags, all, baseline, Normalize(v))
  {
    VersionDateIff(tags, Normalize(v), d);
  }

  lemma VersionDateIff(tags: map<string, Instant>, n: string, d: Instant)
    ensures d in VersionDates(tags, n) <==> exists tag :: tag in tags && tags[tag] == d && Normalize(tag) == n && n != ""
  {}

  /**
   What the backfill stores in a row: nothing if it has times already; otherwise every
   version but the trunk gets the second of the latest of its candidates.
   */
  lemma BackfilledMeans(row: Row, slug: string, changes: TagChangeSet, baseline: Instant)
    ensures var after := BackfilledRow(row, slug, changes, baseline);
            var tags := if slug in changes.tags then changes.tags[slug] else map[];
            var all := if slug in changes.all then Some(changes.all[slug]) else None;
            if row.times != Null then after == row
            else
              && after.versions == row.versions && after.closed == row.closed && after.times.Readable?
              && after.times.times.Keys == row.versions.Keys - {"dev-trunk"}
              && forall v :: v in after.times.times ==>
                   exists m :: IsCandidate(tags, all, baseline, v, m)
                     && (forall d :: IsCandidate(tags, all, baseline, v, d) ==> d <= m)
                     && after.times.times[v] * 1_000_000_000 <= m < (after.times.times[v] + 1) * 1_000_000_000
  {
    var tags := TagDatesOf(changes.tags, slug);
    var all := Lookup(changes.all, slug);
    var after := BackfilledRow(row, slug, changes, baseline);
    if row.times == Null {
      forall v | v in after.times.times
        ensures exists m :: IsCandidate(tags, all, baseline, v, m)
                  && (forall d :: IsCandidate(tags, all, baseline, v, d) ==> d <= m)
                  && after.times.times[v] * 1_000_000_000 <= m < (after.times.times[v] + 1) * 1_000_000_000
      {
        LatestCandidateOf(tags, all, baseline, v);
      }
    }
  }

  lemma LatestCandidateOf(tags: map<string, Instant>, all: Option<Instant>, baseline: Instant, v: string)
    ensures var x := BackfilledStamp(tags, all, baseline, v);
            exists m :: IsCandidate(tags, all, baseline, v, m)
              && (forall d :: IsCandidate(tags, all, baseline, v, d) ==> d <= m)
              && x * 1_000_000_000 <= m < (x + 1) * 1_000_000_000
  {
    var dates := BackfillDates(tags, all, baseline, Normalize(v));
    assert baseline in dates;
    var m := Max(dates);
    StampIsSecond(m);
    CandidateIff(tags, all, baseline, v, m);
    forall d | IsCandidate(tags, all, baseline, v, d) ensures d <= m { CandidateIff(tags, all, baseline, v, d); }
  }

  /** The latest of the dates after Go's zero time, if there is one. */
  ghost predicate IsLatestFor(dates: set<Instant>, latest: Option<Instant>) {
    match latest
    case None => forall d :: d in dates ==> d <= ZERO
    case Some(m) => m in dates && m > ZERO && forall d :: d in dates ==> d <= m
  }

  function Later(a: Instant, b: Instant): Instant {
    if b > a then b else a
  }

  ghost predicate AreLatest(tags: map<string, Instant>, tagged: map<string, Instant>) {
    forall v :: IsLatestFor(VersionDates(tags, v), Lookup(tagged, v))
  }

  lemma VersionDatesGrow(tags: map<string, Instant>, tag: string, t: Instant, v: string)
    requires tag !in tags
    ensures VersionDates(tags[tag := t], v) ==
            if Normalize(tag) == v && v != "" then VersionDates(tags, v) + {t} else VersionDates(tags, v)
  {
    var grown := tags[tag := t];
    forall d
      ensures d in VersionDates(grown, v) <==> d in VersionDates(tags, v) || (d == t && Normalize(tag) == v && v != "")
    {
      DateStep(tags, tag, t, k => Normalize(k) == v && v != "", d);
    }
  }

  /** The dates of the tags with a property, when one tag more is dated. */
  lemma DateStep(tags: map<string, Instant>, tag: string, t: Instant, p: string -> bool, d: Instant)
    requires tag !in tags
    ensures var grown := tags[tag := t];
            (exists k :: k in grown && p(k) && grown[k] == d)
            <==> (exists k :: k in tags && p(k) && tags[k] == d) || (d == t && p(tag))
  {
    var grown := tags[tag := t];
    assert tag in grown && grown[tag] == t;
    if k :| k in tags && p(k) && tags[k] == d { assert k in grown && grown[k] == d; }
    if k :| k in grown && p(k) && grown[k] == d { assert k == tag || (k in tags && tags[k] == d); }
  }

  lemma LatestStep(tags: map<string, Instant>, tag: string, t: Instant, tagged: map<string, Instant>, v: string)
    requires tag !in tags && v == Normalize(tag) && AreLatest(tags, tagged)
    ensures AreLatest(tags[tag := t], if v != "" && t > OrZero(Lookup(tagged, v)) then tagged[v := t] else tagged)
  {
    var after := if v != "" && t > OrZero(Lookup(tagged, v)) then tagged[v := t] else tagged;
    forall w ensures IsLatestFor(VersionDates(tags[tag := t], w), Lookup(after, w)) {
      LatestStepAt(tags, tag, t, tagged, v, w);
    }
  }

  lemma LatestStepAt(
    tags: map<string, Instant>, tag: string, t: Instant, tagged: map<string, Instant>, v: string, w: string)
    requires tag !in tags && v == Normalize(tag) && AreLatest(tags, tagged)
    ensures var after := if v != "" && t > OrZero(Lookup(tagged, v)) then tagged[v := t] else tagged;
            IsLatestFor(VersionDates(tags[tag := t], w), Lookup(after, w))
  {
    VersionDatesGrow(tags, tag, t, w);
    LatestGrows(VersionDates(tags, w), t, Lookup(tagged, w));
  }

  lemma LatestGrows(dates: set<Instant>, t: Instant, latest: Option<Instant>)
    requires IsLatestFor(dates, latest)
    ensures IsLatestFor(dates + {t}, if t > OrZero(latest) then Some(t) else latest)
  {}

  /** The latest date per version of the given tags; tags without a version are left out. */
  method LatestPerVersion(tags: map<string, Instant>) returns (tagged: map<string, Instant>)
    ensures AreLatest(tags, tagged)
  {
    tagged := map[];
    var todo := tags.Keys;
    while todo != {}
      invariant todo <= tags.Keys && AreLatest(tags - todo, tagged)
    {
      var tag :| tag in todo;
      var v := Normalize(tag);
      WalkOn(tags, todo, tag);
      LatestStep(tags - todo, tag, tags[tag], tagged, v);
      todo := todo - {tag};
      if v != "" && tags[tag] > OrZero(Lookup(tagged, v)) { tagged := tagged[v := tags[tag]]; }
    }
    assert tags - todo == tags;
  }

  lemma LatestCandidate(
    tags: map<string, Instant>, all: Option<Instant>, baseline: Instant, n: string, latest: Option<Instant>)
    requires IsLatestFor(VersionDates(tags, n), latest)
    ensures Max(BackfillDates(tags, all, baseline, n)) == Later(Later(baseline, OrZero(all)), OrZero(latest))
  {
    LatestOfAll(VersionDates(tags, n), all, baseline, latest);
  }

  lemma LatestOfAll(dates: set<Instant>, all: Option<Instant>, baseline: Instant, latest: Option<Instant>)
    requires IsLatestFor(dates, latest)
    ensures Max({baseline, ZERO} + dates + if all.Some? then {all.value} else {}) ==
            Later(Later(baseline, OrZero(all)), OrZero(latest))
  {
    MaxIs({baseline, ZERO} + dates + (if all.Some? then {all.value} else {}),
          Later(Later(baseline, OrZero(all)), OrZero(latest)));
  }

  ghost function BackfilledStamp(
    tags: map<string, Instant>, all: Option<Instant>, baseline: Instant, version: string): Stamp
  {
    StampOf(Max(BackfillDates(tags, all, baseline, Normalize(version))))
  }

  lemma BackfilledGrow(
    versions: set<string>, v: string, tags: map<string, Instant>, all: Option<Instant>, baseline: Instant)
    ensures var before, after := BackfilledTimes(versions, tags, all, baseline),
                                 BackfilledTimes(versions + {v}, tags, all, baseline);
            after == if v == TRUNK then before else before[v := BackfilledStamp(tags, all, baseline, v)]
  {
    assert v == TRUNK ==> versions + {v} - {TRUNK} == versions - {TRUNK};
  }

  method BackfillTime(
    ghost tags: map<string, Instant>, tagged: map<string, Instant>, all: Option<Instant>, baseline: Instant, v: string)
    returns (t: Instant)
    requires AreLatest(tags, tagged)
    ensures StampOf(t) == BackfilledStamp(tags, all, baseline, v)
  {
    var n := Normalize(v);
    t := baseline;
    if OrZero(all) > t { t := OrZero(all); }
    var tagTime := OrZero(Lookup(tagged, n));
    if tagTime > t { t := tagTime; }
    assert IsLatestFor(VersionDates(tags, n), Lookup(tagged, n));
    LatestCandidate(tags, all, baseline, n, Lookup(tagged, n));
    assert t == Later(Later(baseline, OrZero(all)), OrZero(Lookup(tagged, n)));
  }

  /** One package's backfilled times. */
  method BackfillVersions(
    versions: map<string, string>, tags: map<string, Instant>, all: Option<Instant>, baseline: Instant)
    returns (times: map<string, Stamp>)
    ensures times == BackfilledTimes(versions.Keys, tags, all, baseline)
  {
    var tagged := LatestPerVersion(tags);
    times := map[];
    var todo := versions.Keys;
    ghost var done: set<string> := {};
    while todo != {}
      invariant done + todo == versions.Keys
      invariant times == BackfilledTimes(done, tags, all, baseline)
    {
      var v :| v in todo;
      todo := todo - {v};
      BackfilledGrow(done, v, tags, all, baseline);
      if v != TRUNK {
        var t := BackfillTime(tags, tagged, all, baseline, v);
        times := times[v := StampOf(t)];
      }
      done := done + {v};
    }
  }

  // ----- The table -----

  /** The versions of a row whose time differs in another state of the row. */
  ghost function Differences(before: StoredTimes, after: StoredTimes): set<string> {
    if before.Readable? && after.Readable?
    then set k | k in before.times && k in after.times && before.times[k] != after.times[k]
    else {}
  }

  /** The package and version of every time that differs between two states of the table. */
  ghost function Raised(before: map<string, Row>, after: map<string, Row>): set<TagKey> {
    set slug, k | slug in before && slug in after && k in Differences(before[slug].times, after[slug].times) :: (slug, k)
  }

  /** Packages without a change keep their row. */
  lemma UntouchedRows(rows: map<string, Row>, changes: TagChangeSet, stamp: Stamp)
    ensures forall slug :: slug in rows && slug !in changes.tags && slug !in changes.all ==>
              ResetRows(rows, changes, stamp)[slug] == rows[slug]
  {
    forall slug | slug in rows && slug !in changes.tags && slug !in changes.all
      ensures ResetRows(rows, changes, stamp)[slug] == rows[slug]
    {
      if rows[slug].times.Readable? {
        assert ResetTimes(rows[slug].times.times, false, ResetKeys({}), stamp) == rows[slug].times.times;
      }
    }
  }

  ghost function Unfilled(rows: map<string, Row>, slugs: set<string>): set<string> {
    set slug | slug in slugs && slug in rows && rows[slug].times.Null?
  }

  lemma OneMoreUnfilled(rows: map<string, Row>, slugs: set<string>, slug: string)
    requires slug in rows && slug !in slugs
    ensures |Unfilled(rows, slugs + {slug})| == |Unfilled(rows, slugs)| + if rows[slug].times.Null? then 1 else 0
  {
    assert Unfilled(rows, slugs + {slug}) == Unfilled(rows, slugs) + if rows[slug].times.Null? then {slug} else {};
  }

  lemma {:induction false} PairsCount(slug: string, keys: set<string>)
    ensures |set k | k in keys :: (slug, k)| == |keys|
  {
    if keys != {} {
      var x :| x in keys;
      PairsCount(slug, keys - {x});
      assert (set k | k in keys :: (slug, k)) == (set k | k in keys - {x} :: (slug, k)) + {(slug, x)};
    }
  }

  lemma RaisedGrows(before: map<string, Row>, rows: map<string, Row>, slug: string, row: Row)
    requires before.Keys == rows.Keys && slug in rows && rows[slug] == before[slug]
    ensures |Raised(before, rows[slug := row])| == |Raised(before, rows)| + |Differences(before[slug].times, row.times)|
  {
    var pairs := set k | k in Differences(before[slug].times, row.times) :: (slug, k);
    PairsCount(slug, Differences(before[slug].times, row.times));
    RaisedParts(before, rows, slug, row);
    assert pairs !! Raised(before, rows);
  }

  lemma RaisedParts(before: map<string, Row>, rows: map<string, Row>, slug: string, row: Row)
    requires before.Keys == rows.Keys && slug in rows && rows[slug] == before[slug]
    ensures var pairs := set k | k in Differences(before[slug].times, row.times) :: (slug, k);
            Raised(before, rows[slug := row]) == Raised(before, rows) + pairs && pairs !! Raised(before, rows)
  {
    assert Differences(before[slug].times, rows[slug].times) == {};
  }

  /** A table on its way from one state to another, with some packages done. */
  ghost function Reached(before: map<string, Row>, target: map<string, Row>, done: set<string>): map<string, Row>
    requires before.Keys == target.Keys
  {
    map slug | slug in before :: if slug in done then target[slug] else before[slug]
  }

  lemma NoneReached(before: map<string, Row>, target: map<string, Row>)
    requires before.Keys == target.Keys
    ensures Reached(before, target, {}) == before && Raised(before, before) == {}
  {}

  lemma OneMoreReached(before: map<string, Row>, target: map<string, Row>, done: set<string>, slug: string)
    requires before.Keys == target.Keys && slug !in done
    ensures var rows := Reached(before, target, done);
            && rows.Keys == before.Keys && (slug in before ==> rows[slug] == before[slug])
            && Reached(before, target, done + {slug}) == (if slug in before then rows[slug := target[slug]] else rows)
  {}

  lemma AllReached(before: map<string, Row>, target: map<string, Row>, done: set<string>)
    requires before.Keys == target.Keys
    requires forall slug :: slug in before && slug !in done ==> target[slug] == before[slug]
    ensures Reached(before, target, done) == target
  {}

  lemma RaiseNone(times: map<string, Stamp>, stamp: Stamp)
    ensures Raise(times, {}, stamp) == times && Differences(Readable(times), Readable(times)) == {}
  {}

  lemma RaiseOneMore(times: map<string, Stamp>, hits: set<string>, k: string, stamp: Stamp)
    requires k in times && k !in hits
    ensures var before, after := Raise(times, hits, stamp), Raise(times, hits + {k}, stamp);
            && after == (if before[k] < stamp then before[k := stamp] else before)
            && |Differences(Readable(times), Readable(after))| ==
               |Differences(Readable(times), Readable(before))| + (if before[k] < stamp then 1 else 0)
  {
    var before, after := Raise(times, hits, stamp), Raise(times, hits + {k}, stamp);
    if before[k] < stamp {
      assert Differences(Readable(times), Readable(after)) == Differences(Readable(times), Readable(before)) + {k};
    } else {
      assert after == before;
    }
  }

  lemma HitOneMore(keys: set<string>, k: string, resetAll: bool, toReset: set<string>)
    ensures HitKeys(keys + {k}, resetAll, toReset) ==
            if IsReset(k, resetAll, toReset) then HitKeys(keys, resetAll, toReset) + {k}
            else HitKeys(keys, resetAll, toReset)
    ensures k !in keys ==> k !in HitKeys(keys, resetAll, toReset)
  {}

  /** The rows of one package type. */
  class PackageTable {
    var rows: map<string, Row>

    constructor ()
      ensures rows == map[]
    {
      rows := map[];
    }

    /** Stored keys match by their normalized form. */
    method Hits(k: string, resetAll: bool, toReset: set<string>) returns (hit: bool)
      ensures hit <==> IsReset(k, resetAll, toReset)
    {
      return resetAll || Normalize(k) in toReset;
    }

    /** Re-stamps the versions of one readable row in place; reports how many. */
    method ResetTimesOf(times: map<string, Stamp>, resetAll: bool, toReset: set<string>, stamp: Stamp)
      returns (result: map<string, Stamp>, count: nat)
      ensures result == ResetTimes(times, resetAll, toReset, stamp)
      ensures count == |Differences(Readable(times), Readable(result))|
    {
      result, count := times, 0;
      var todo := times.Keys;
      ghost var done: set<string> := {};
      RaiseNone(times, stamp);
      while todo != {}
        invariant done !! todo && done + todo == times.Keys
        invariant result == Raise(times, HitKeys(done, resetAll, toReset), stamp)
        invariant count == |Differences(Readable(times), Readable(result))|
        decreases todo
      {
        var k :| k in todo;
        MoveOver(done, todo, k);
        HitOneMore(done, k, resetAll, toReset);
        RaiseOneMore(times, HitKeys(done, resetAll, toReset), k, stamp);
        todo, done := todo - {k}, done + {k};
        var hit := Hits(k, resetAll, toReset);
        if hit && result[k] < stamp {
          result := result[k := stamp];
          count := count + 1;
        }
      }
      assert done == times.Keys;
    }

    /** Re-stamps one open row that has readable times. */
    method ResetOne(row: Row, resetAll: bool, tags: set<string>, stamp: Stamp) returns (result: Row, count: nat)
      ensures result == ResetRow(row, resetAll, tags, stamp)
      ensures count == |Differences(row.times, result.times)|
    {
      result, count := row, 0;
      if !row.closed && row.times.Readable? {
        var times;
        times, count := ResetTimesOf(row.times.times, resetAll, ResetKeys(tags), stamp);
        result := row.(times := Readable(times));
      } else {
        assert Differences(row.times, row.times) == {};
      }
    }

    /** The reset transaction: every open package with a changed tag is re-stamped. */
    method ResetPublishedTimes(changes: TagChangeSet, now: Instant) returns (reset: nat)
      modifies this
      ensures rows == ResetRows(old(rows), changes, StampOf(now))
      ensures reset == |Raised(old(rows), rows)|
    {
      reset := 0;
      var stamp := StampOf(now);
      var todo := changes.tags.Keys + changes.all.Keys;
      ghost var before, target, done: set<string> := rows, ResetRows(rows, changes, stamp), {};
      NoneReached(before, target);
      while todo != {}
        invariant done !! todo && done + todo == changes.tags.Keys + changes.all.Keys
        invariant rows == Reached(before, target, done) && reset == |Raised(before, rows)|
        decreases todo
      {
        var slug :| slug in todo;
        MoveOver(done, todo, slug);
        OneMoreReached(before, target, done, slug);
        todo, done := todo - {slug}, done + {slug};
        var count := ResetSlug(changes, stamp, slug, before);
        reset := reset + count;
      }
      UntouchedRows(before, changes, stamp);
      AllReached(before, target, done);
    }

    /** One package of the reset; gives the number of raised times. */
    method ResetSlug(
      changes: TagChangeSet, stamp: Stamp, slug: string, ghost before: map<string, Row>) returns (count: nat)
      requires before.Keys == rows.Keys && (slug in rows ==> rows[slug] == before[slug])
      modifies this
      ensures rows == if slug in before then old(rows)[slug := ResetRows(before, changes, stamp)[slug]] else old(rows)
      ensures |Raised(before, rows)| == |Raised(before, old(rows))| + count
    {
      count := 0;
      if slug in rows {
        var row;
        row, count := ResetOne(rows[slug], slug in changes.all, TagsOf(changes.tags, slug), stamp);
        RaisedGrows(before, rows, slug, row);
        rows := rows[slug := row];
      }
    }

    /** The backfill transaction: every row without published times gets them. */
    method BackfillPublishedTimes(changes: TagChangeSet, baseline: Instant) returns (affected: nat)
      modifies this
      ensures rows == BackfilledRows(old(rows), changes, baseline)
      ensures affected == |Unfilled(old(rows), old(rows).Keys)|
    {
      affected := 0;
      var todo := rows.Keys;
      ghost var before, target, done: set<string> := rows, BackfilledRows(rows, changes, baseline), {};
      NoneReached(before, target);
      while todo != {}
        invariant done !! todo && done + todo == before.Keys && rows.Keys == before.Keys
        invariant rows == Reached(before, target, done) && affected == |Unfilled(before, done)|
        decreases todo
      {
        var slug :| slug in todo;
        MoveOver(done, todo, slug);
        OneMoreReached(before, target, done, slug);
        OneMoreUnfilled(before, done, slug);
        todo, done := todo - {slug}, done + {slug};
        var row, filled := BackfillOne(rows[slug], slug, changes, baseline);
        rows := rows[slug := row];
        affected := affected + filled;
      }
      AllReached(before, target, done);
    }

    /** Fills in one row, if it has no times yet. */
    method BackfillOne(row: Row, slug: string, changes: TagChangeSet, baseline: Instant)
      returns (result: Row, filled: nat)
      ensures result == BackfilledRow(row, slug, changes, baseline)
      ensures filled == if row.times.Null? then 1 else 0
    {
      if row.times != Null { return row, 0; }
      var tags := if slug in changes.tags then changes.tags[slug] else map[];
      var all := if slug in changes.all then Some(changes.all[slug]) else None;
      var times := BackfillVersions(row.versions, tags, all, baseline);
      return row.(times := Readable(times)), 1;
    }
  }
}
