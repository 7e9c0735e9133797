/** Geo data behind a cache keyed by path, size and modification time: it agrees with loading
    afresh as long as those three determine the content. */
module GeoCache {

  import opened Options

  type Content = string

  datatype File = File(size: nat, mtime: int, content: Content)

  /** The files at a moment. */
  type Disk = map<string, File>

  datatype Fingerprint = Fingerprint(size: nat, mtime: int)

  /** What a file's content means; nothing at all for a file that cannot be read. */
  datatype Geo = NoData | Parsed(content: Content)

  function FileFingerprint(disk: Disk, path: string): (fp: Option<Fingerprint>)
  {
    if path in disk then Some(Fingerprint(disk[path].size, disk[path].mtime)) else None
  }

  /** Loading without a cache. */
  function Load(disk: Disk, path: Option<string>): (g: Geo)
  {
    if path.Some? && path.value in disk then Parsed(disk[path.value].content) else NoData
  }

  /** Path, size and time determine the content. */
  type Truth = (string, nat, int) -> Content

  predicate Honest(disk: Disk, truth: Truth)
  {
    forall path :: path in disk ==> disk[path].content == truth(path, disk[path].size, disk[path].mtime)
  }

  /** One cached file. */
  datatype Entry = Entry(path: Option<string>, fingerprint: Option<Fingerprint>, data: Geo)

  const EMPTY: Entry := Entry(None, None, NoData)

  /** What is cached is what the file of that path and fingerprint holds. */
  predicate Sound(e: Entry, truth: Truth)
  {
    && (e.path.None? ==> e.data == NoData)
    && (e.path.Some? && e.fingerprint.Some? ==>
          e.data == Parsed(truth(e.path.value, e.fingerprint.value.size, e.fingerprint.value.mtime)))
  }

  predicate Hit(e: Entry, path: Option<string>, fp: Option<Fingerprint>)
  {
    path == e.path && ((fp.Some? && fp == e.fingerprint) || path.None?)
  }

  function Stat(disk: Disk, path: Option<string>): (fp: Option<Fingerprint>)
  {
    if path.Some? then FileFingerprint(disk, path.value) else None
  }

  /** A hit on an honest disk is what loading would give. */
  lemma HitIsFresh(e: Entry, path: Option<string>, disk: Disk, truth: Truth)
    requires Sound(e, truth) && Honest(disk, truth) && Hit(e, path, Stat(disk, path))
    ensures e.data == Load(disk, path)
  {
  }

  /** What is stored after a miss is sound, if the file did not change between the look at
      its fingerprint and the read. */
  lemma MissIsSound(path: Option<string>, seen: Disk, read: Disk, truth: Truth)
    requires Honest(read, truth)
    requires path.Some? && path.value in seen ==> path.value in read && seen[path.value] == read[path.value]
    ensures Sound(Entry(path, Stat(seen, path), Load(read, path)), truth)
  {
  }

  class GeoCache {
    var geoip: Entry
    var geosite: Entry

    ghost predicate Valid(truth: Truth)
      reads this
    {
      Sound(geoip, truth) && Sound(geosite, truth)
    }

    constructor ()
      ensures geoip == EMPTY && geosite == EMPTY
      ensures forall truth: Truth :: Valid(truth)
    {
      geoip, geosite := EMPTY, EMPTY;
    }

    /** Geo data for a configuration.  `seen` is the disk when the fingerprints are taken and
        `read` when files are read; each of the two files is replaced only if it missed. */
    method LoadCached(ipPath: Option<string>, sitePath: Option<string>, seen: Disk, read: Disk)
      returns (ip: Geo, site: Geo)
      modifies this
      ensures ip == if Hit(old(geoip), ipPath, Stat(seen, ipPath)) then old(geoip).data else Load(read, ipPath)
      ensures site == if Hit(old(geosite), sitePath, Stat(seen, sitePath)) then old(geosite).data
                      else Load(read, sitePath)
      ensures geoip == if Hit(old(geoip), ipPath, Stat(seen, ipPath)) then old(geoip)
                       else Entry(ipPath, Stat(seen, ipPath), Load(read, ipPath))
      ensures geosite == if Hit(old(geosite), sitePath, Stat(seen, sitePath)) then old(geosite)
                         else Entry(sitePath, Stat(seen, sitePath), Load(read, sitePath))
    {
      var ipFp, siteFp := Stat(seen, ipPath), Stat(seen, sitePath);
      var ipHit, siteHit := Hit(geoip, ipPath, ipFp), Hit(geosite, sitePath, siteFp);
      var freshIp, freshSite := NoData, NoData;
      if !ipHit || !siteHit {
        freshIp, freshSite := Load(read, ipPath), Load(read, sitePath);
      }
      if ipHit {
        ip := geoip.data;
      } else {
        geoip := Entry(ipPath, ipFp, freshIp);
        ip := freshIp;
      }
      if siteHit {
        site := geosite.data;
      } else {
        geosite := Entry(sitePath, siteFp, freshSite);
        site := freshSite;
      }
    }

    /** On an honest disk that holds still during the call: exactly what loading gives. */
    method Reload(ipPath: Option<string>, sitePath: Option<string>, disk: Disk, ghost truth: Truth)
      returns (ip: Geo, site: Geo)
      requires Valid(truth) && Honest(disk, truth)
      modifies this
      ensures Valid(truth)
      ensures ip == Load(disk, ipPath) && site == Load(disk, sitePath)
    {
      ip, site := LoadCached(ipPath, sitePath, disk, disk);
      if Hit(old(geoip), ipPath, Stat(disk, ipPath)) {
        HitIsFresh(old(geoip), ipPath, disk, truth);
      } else {
        MissIsSound(ipPath, disk, disk, truth);
      }
      if Hit(old(geosite), sitePath, Stat(disk, sitePath)) {
        HitIsFresh(old(geosite), sitePath, disk, truth);
      } else {
        MissIsSound(sitePath, disk, disk, truth);
      }
    }
  }

  /** A reload: which files are configured, and the disk as edits have left it. */
  datatype Request = Request(ipPath: Option<string>, sitePath: Option<string>, disk: Disk)

  /** What loading without a cache would give. */
  function Uncached(r: Request): (geo: (Geo, Geo))
  {
    (Load(r.disk, r.ipPath), Load(r.disk, r.sitePath))
  }

  /** Over any sequence of reloads and edits, each reload returns what an uncached load of
      that moment would, whichever of the two files changed. */
  method Serve(requests: seq<Request>, ghost truth: Truth) returns (answers: seq<(Geo, Geo)>)
    requires forall k :: 0 <= k < |requests| ==> Honest(requests[k].disk, truth)
    ensures |answers| == |requests|
    ensures forall k :: 0 <= k < |requests| ==> answers[k] == Uncached(requests[k])
  {
    var cache := new GeoCache();
    answers := [];
    for i := 0 to |requests|
      invariant cache.Valid(truth) && fresh(cache) && |answers| == i
      invariant forall k :: 0 <= k < i ==> answers[k] == Uncached(requests[k])
    {
      var ip, site := cache.Reload(requests[i].ipPath, requests[i].sitePath, requests[i].disk, truth);
      answers := answers + [(ip, site)];
    }
  }

  /** A stored entry answers for another disk with that disk's content exactly if the file
      was still there to be read and its content the one the fingerprint stands for. */
  lemma StoredEntryIsFreshExactly(path: string, seen: Disk, read: Disk, later: Disk, truth: Truth)
    requires path in seen && path in later
    requires Honest(later, truth) && Honest(seen, truth)
    requires FileFingerprint(later, path) == FileFingerprint(seen, path)
    ensures var e := Entry(Some(path), Stat(seen, Some(path)), Load(read, Some(path)));
            && Hit(e, Some(path), Stat(later, Some(path)))
            && (e.data == Load(later, Some(path))
                <==> path in read && read[path].content == seen[path].content)
  {
  }

  /** A file replaced between the look and the read, and then put back with its time: the
      entry stored keeps answering for it, with the replacement; or with nothing, if the file
      was gone when it was read. */
  lemma EditDuringReload(path: string, was: File, replaced: File)
    requires was.content != replaced.content
    ensures var before: Disk, during: Disk, gone: Disk := map[path := was], map[path := replaced], map[];
            var e := Entry(Some(path), Stat(before, Some(path)), Load(during, Some(path)));
            var f := Entry(Some(path), Stat(before, Some(path)), Load(gone, Some(path)));
            && Hit(e, Some(path), Stat(before, Some(path))) && Hit(f, Some(path), Stat(before, Some(path)))
            && e.data == Parsed(replaced.content) != Load(before, Some(path))
            && f.data == NoData != Load(before, Some(path))
  {
  }
}
