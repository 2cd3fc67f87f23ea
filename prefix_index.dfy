/**
 * The index from DXCC entity code to reference prefix that both feeds build while reading rows:
 * `if (!prefixByDXCCCode[code]) prefixByDXCCCode[code] = ref.split('-')[0]`. An entry is written
 * when it is missing or holds the empty string (which is falsy), and kept otherwise.
 */
module PrefixIndex {
  import opened Text

  type Index = map<int, string>

  /** One accepted record as the index sees it. */
  datatype Sighting = Sighting(code: int, ref: string)

  /** An entry that will not be written again. */
  predicate Settled(idx: Index, code: int) {
    code in idx && idx[code] != ""
  }

  /** Recording one accepted record. */
  function Record(idx: Index, code: int, ref: string): (r: Index)
    ensures r.Keys == idx.Keys + {code}
    ensures Settled(idx, code) ==> r == idx
    ensures !Settled(idx, code) ==> r[code] == BeforeDash(ref)
    ensures forall c :: c in idx && c != code ==> r[c] == idx[c]
  {
    if Settled(idx, code) then idx else idx[code := BeforeDash(ref)]
  }

  /** Recording the accepted records in order. */
  function RecordAll(idx: Index, ss: seq<Sighting>): Index {
    if ss == [] then idx else Record(RecordAll(idx, ss[..|ss| - 1]), ss[|ss| - 1].code, ss[|ss| - 1].ref)
  }

  /** The codes the records carry. */
  function Codes(ss: seq<Sighting>): set<int> {
    set i | 0 <= i < |ss| :: ss[i].code
  }

  /** The reference definition read from the front: the first non-empty prefix seen for the code, or `""`. */
  function FirstPrefix(ss: seq<Sighting>, code: int): string {
    if ss == [] then ""
    else if ss[0].code == code && BeforeDash(ss[0].ref) != "" then BeforeDash(ss[0].ref)
    else FirstPrefix(ss[1..], code)
  }

  lemma CodesSnoc(ss: seq<Sighting>, s: Sighting)
    ensures Codes(ss + [s]) == Codes(ss) + {s.code}
  {
    var t := ss + [s];
    assert forall i :: 0 <= i < |ss| ==> t[i] == ss[i];
    assert t[|ss|] == s;
  }

  lemma CodesCons(ss: seq<Sighting>)
    requires ss != []
    ensures Codes(ss) == {ss[0].code} + Codes(ss[1..])
  {
    assert forall i :: 1 <= i < |ss| ==> ss[1..][i - 1] == ss[i];
    assert forall i :: 0 <= i < |ss| - 1 ==> ss[1..][i] == ss[i + 1];
  }

  /** The index has an entry for exactly the codes it started with and the codes recorded. */
  lemma {:induction false} RecordAllKeys(idx: Index, ss: seq<Sighting>)
    ensures RecordAll(idx, ss).Keys == idx.Keys + Codes(ss)
  {
    if ss != [] {
      var n := |ss| - 1;
      RecordAllKeys(idx, ss[..n]);
      assert ss == ss[..n] + [ss[n]];
      CodesSnoc(ss[..n], ss[n]);
    }
  }

  /** A settled entry is never overwritten by later records. */
  lemma {:induction false} NeverOverwritten(idx: Index, ss: seq<Sighting>, code: int)
    requires Settled(idx, code)
    ensures code in RecordAll(idx, ss) && RecordAll(idx, ss)[code] == idx[code]
  {
    if ss != [] {
      NeverOverwritten(idx, ss[..|ss| - 1], code);
    }
  }

  /** Recording `a` and then `b` is recording `a + b`. */
  lemma {:induction false} RecordAllAppend(idx: Index, a: seq<Sighting>, b: seq<Sighting>)
    ensures RecordAll(idx, a + b) == RecordAll(RecordAll(idx, a), b)
  {
    if b == [] {
      assert a + b == a;
    } else {
      var n := |b| - 1;
      RecordAllAppend(idx, a, b[..n]);
      assert (a + b)[..|a + b| - 1] == a + b[..n];
    }
  }

  /** Within one run, an entry settled by the first records keeps its value to the end. */
  lemma NeverOverwrittenInRun(a: seq<Sighting>, b: seq<Sighting>, code: int)
    requires Settled(RecordAll(map[], a), code)
    ensures code in RecordAll(map[], a + b) && RecordAll(map[], a + b)[code] == RecordAll(map[], a)[code]
  {
    RecordAllAppend(map[], a, b);
    NeverOverwritten(RecordAll(map[], a), b, code);
  }

  /** The first non-empty prefix, extended by one more record. */
  lemma {:induction false} FirstPrefixSnoc(ss: seq<Sighting>, s: Sighting, code: int)
    ensures FirstPrefix(ss + [s], code)
         == if FirstPrefix(ss, code) != "" then FirstPrefix(ss, code)
            else if s.code == code then BeforeDash(s.ref) else ""
  {
    if ss != [] {
      assert (ss + [s])[1..] == ss[1..] + [s];
      FirstPrefixSnoc(ss[1..], s, code);
    } else {
      assert ([] + [s])[1..] == [];
    }
  }

  /** A run that starts from the empty index maps each code to its first non-empty prefix, or to `""` when there is none. */
  lemma {:induction false} RecordAllFirstSeen(ss: seq<Sighting>, code: int)
    requires code in Codes(ss)
    ensures code in RecordAll(map[], ss)
    ensures RecordAll(map[], ss)[code] == FirstPrefix(ss, code)
  {
    RecordAllKeys(map[], ss);
    var n := |ss| - 1;
    var prev := ss[..n];
    assert ss == prev + [ss[n]];
    FirstPrefixSnoc(prev, ss[n], code);
    CodesSnoc(prev, ss[n]);
    if code in Codes(prev) {
      RecordAllFirstSeen(prev, code);
    } else {
      RecordAllKeys(map[], prev);
      FirstPrefixAbsent(prev, code);
    }
  }

  /** A code that was never recorded has no prefix. */
  lemma {:induction false} FirstPrefixAbsent(ss: seq<Sighting>, code: int)
    requires code !in Codes(ss)
    ensures FirstPrefix(ss, code) == ""
  {
    if ss != [] {
      CodesCons(ss);
      FirstPrefixAbsent(ss[1..], code);
    }
  }

  /** An empty prefix does not settle its code: a later record with a non-empty prefix takes the entry. */
  lemma EmptyPrefixReplaced()
    ensures RecordAll(map[], [Sighting(230, "-1"), Sighting(230, "DLFF-0001")])[230] == "DLFF"
  {
    var ss := [Sighting(230, "-1"), Sighting(230, "DLFF-0001")];
    assert ss[..1] == [Sighting(230, "-1")];
    assert [Sighting(230, "-1")][..0] == [];
    assert BeforeDash("-1") == "";
    assert BeforeDash("DLFF-0001") == "DLFF";
  }
}
