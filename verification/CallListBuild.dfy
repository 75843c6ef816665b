/**
 Building call lists: which voters get an entry, with which phones and priority,
 when a list is generated from a voter universe and when a voter list is appended.
 */
module CallListBuild {
  import opened Options

  datatype PhoneRow = PhoneRow(campaign: nat, voter: nat, id: nat, value: string, kind: string, primary: bool)

  datatype Phone = Phone(id: nat, value: string, kind: string, primary: bool)

  /** What is decided about a voter when the entry is created. */
  datatype Contact = Contact(voter: nat, priority: int, phones: seq<Phone>)

  /** The rows of the whole database that list building reads, all campaigns together. */
  datatype Data = Data(phones: seq<PhoneRow>, dnc: set<(nat, string)>, interactions: seq<(nat, nat)>)

  // --- queries ---

  predicate Among(voter: nat, among: Option<seq<nat>>) {
    among.Some? ==> voter in among.value
  }

  function SelectPhones(rows: seq<PhoneRow>, campaign: nat, among: Option<seq<nat>>): seq<PhoneRow> {
    if rows == [] then []
    else
      var last := rows[|rows| - 1];
      var before := SelectPhones(rows[..|rows| - 1], campaign, among);
      if last.campaign == campaign && Among(last.voter, among) then before + [last] else before
  }

  function SelectInteractions(rows: seq<(nat, nat)>, campaign: nat, among: Option<seq<nat>>): seq<nat> {
    if rows == [] then []
    else
      var last := rows[|rows| - 1];
      var before := SelectInteractions(rows[..|rows| - 1], campaign, among);
      if last.0 == campaign && Among(last.1, among) then before + [last.1] else before
  }

  function DncNumbers(data: Data, campaign: nat): set<string> {
    set entry | entry in data.dnc && entry.0 == campaign :: entry.1
  }

  // --- one voter ---

  /** 10 to 15 digits. */
  predicate ValidPhone(value: string) {
    10 <= |value| <= 15 && forall i | 0 <= i < |value| :: '0' <= value[i] <= '9'
  }

  predicate Callable(row: PhoneRow, dnc: set<string>) {
    ValidPhone(row.value) && row.value !in dnc
  }

  /** The voter's callable phones, in row order. */
  function PhonesOf(rows: seq<PhoneRow>, dnc: set<string>, voter: nat): seq<Phone> {
    if rows == [] then []
    else
      var last := rows[|rows| - 1];
      var before := PhonesOf(rows[..|rows| - 1], dnc, voter);
      if last.voter == voter && Callable(last, dnc) then before + [Phone(last.id, last.value, last.kind, last.primary)]
      else before
  }

  function CountOf(voters: seq<nat>, voter: nat): nat {
    if voters == [] then 0
    else CountOf(voters[..|voters| - 1], voter) + if voters[|voters| - 1] == voter then 1 else 0
  }

  /** 100 less 20 for every earlier interaction, but never below 0. */
  function CalculatePriorityScore(interactions: int): int {
    if 100 - interactions * 20 < 0 then 0 else 100 - interactions * 20
  }

  lemma PriorityFormula(interactions: nat)
    ensures interactions <= 5 ==> CalculatePriorityScore(interactions) == 100 - 20 * interactions
    ensures interactions > 5 ==> CalculatePriorityScore(interactions) == 0
  {
  }

  /** Less contacted voters come first, until the fifth contact; the score lies between 0 and 100. */
  lemma LessContactedFirst(less: nat, more: nat)
    requires less < more
    ensures 0 <= CalculatePriorityScore(more) <= CalculatePriorityScore(less) <= CalculatePriorityScore(0) == 100
    ensures CalculatePriorityScore(more) < CalculatePriorityScore(less) <==> less < 5
  {
  }

  // --- phone order: primary first, then by type ---

  /** Order of strings by their characters. */
  predicate LexLe(a: string, b: string) {
    a == "" || (b != "" && (a[0] < b[0] || (a[0] == b[0] && LexLe(a[1..], b[1..]))))
  }

  lemma {:induction false} LexTotal(a: string, b: string)
    ensures LexLe(a, b) || LexLe(b, a)
  {
    if a != "" && b != "" && a[0] == b[0] { LexTotal(a[1..], b[1..]); }
  }

  lemma {:induction false} LexTransitive(a: string, b: string, c: string)
    requires LexLe(a, b) && LexLe(b, c)
    ensures LexLe(a, c)
  {
    if a != "" && a[0] == b[0] && b[0] == c[0] { LexTransitive(a[1..], b[1..], c[1..]); }
  }

  /** `a` is a beginning of `b`, or has the smaller character where they first differ. */
  lemma {:induction false} LexInCharacters(a: string, b: string)
    ensures LexLe(a, b) <==>
              a <= b || exists k :: 0 <= k < |a| && k < |b| && a[..k] == b[..k] && a[k] < b[k]
  {
    if a != "" && b != "" && a[0] == b[0] {
      LexInCharacters(a[1..], b[1..]);
      if k :| 0 <= k < |a| && k < |b| && a[..k] == b[..k] && a[k] < b[k] {
        assert a[1..][..k - 1] == a[..k][1..] && b[1..][..k - 1] == b[..k][1..];
      }
      if k :| 0 <= k < |a[1..]| && k < |b[1..]| && a[1..][..k] == b[1..][..k] && a[1..][k] < b[1..][k] {
        assert a[..k + 1] == [a[0]] + a[1..][..k] && b[..k + 1] == [b[0]] + b[1..][..k];
        assert a[k + 1] < b[k + 1];
      }
      assert a == [a[0]] + a[1..] && b == [b[0]] + b[1..];
    } else if a != "" && b != "" {
      assert a[..0] == b[..0];
    }
  }

  predicate PhoneLe(p: Phone, q: Phone) {
    (p.primary && !q.primary) || (p.primary == q.primary && LexLe(p.kind, q.kind))
  }

  predicate PhonesSorted(phones: seq<Phone>) {
    forall i, j | 0 <= i < j < |phones| :: PhoneLe(phones[i], phones[j])
  }

  /** Primary phones come before the others, and within both the types ascend. */
  lemma SortedInColumns(phones: seq<Phone>)
    ensures PhonesSorted(phones) <==>
              forall i, j | 0 <= i < j < |phones| ::
                (phones[j].primary ==> phones[i].primary) &&
                (phones[i].primary == phones[j].primary ==> LexLe(phones[i].kind, phones[j].kind))
  {
  }

  /** Behind every phone that sorts no later. */
  function InsertPhone(phones: seq<Phone>, p: Phone): seq<Phone> {
    if phones == [] || PhoneLe(phones[|phones| - 1], p) then phones + [p]
    else InsertPhone(phones[..|phones| - 1], p) + [phones[|phones| - 1]]
  }

  /** The stable sort of list.sort with the key (not primary, type). */
  function SortPhones(phones: seq<Phone>): seq<Phone> {
    if phones == [] then []
    else InsertPhone(SortPhones(phones[..|phones| - 1]), phones[|phones| - 1])
  }

  function OfKey(phones: seq<Phone>, primary: bool, kind: string): seq<Phone> {
    if phones == [] then []
    else
      var last := phones[|phones| - 1];
      var before := OfKey(phones[..|phones| - 1], primary, kind);
      if last.primary == primary && last.kind == kind then before + [last] else before
  }

  lemma OfKeySnoc(phones: seq<Phone>, p: Phone, primary: bool, kind: string)
    ensures OfKey(phones + [p], primary, kind)
         == if p.primary == primary && p.kind == kind then OfKey(phones, primary, kind) + [p] else OfKey(phones, primary, kind)
  {
    assert (phones + [p])[..|phones|] == phones;
  }

  lemma SortedSnoc(phones: seq<Phone>, p: Phone)
    requires PhonesSorted(phones) && forall q | q in phones :: PhoneLe(q, p)
    ensures PhonesSorted(phones + [p])
  {
  }

  lemma LastIsGreatest(phones: seq<Phone>, p: Phone)
    requires PhonesSorted(phones) && phones != [] && PhoneLe(phones[|phones| - 1], p)
    ensures forall q | q in phones :: PhoneLe(q, p)
  {
    forall i | 0 <= i < |phones| ensures PhoneLe(phones[i], p) {
      if i < |phones| - 1 { PhoneLeTransitive(phones[i], phones[|phones| - 1], p); }
    }
  }

  lemma {:induction false} InsertKeepsAll(phones: seq<Phone>, p: Phone)
    ensures multiset(InsertPhone(phones, p)) == multiset(phones) + multiset{p}
  {
    if !(phones == [] || PhoneLe(phones[|phones| - 1], p)) {
      InsertKeepsAll(phones[..|phones| - 1], p);
      assert phones == phones[..|phones| - 1] + [phones[|phones| - 1]];
    }
  }

  lemma {:induction false} InsertSorts(phones: seq<Phone>, p: Phone)
    requires PhonesSorted(phones)
    ensures PhonesSorted(InsertPhone(phones, p))
  {
    if phones == [] {
    } else if PhoneLe(phones[|phones| - 1], p) {
      LastIsGreatest(phones, p);
      SortedSnoc(phones, p);
    } else {
      var init, last := phones[..|phones| - 1], phones[|phones| - 1];
      InsertSorts(init, p);
      InsertKeepsAll(init, p);
      LexTotal(last.kind, p.kind);
      forall q | q in InsertPhone(init, p) ensures PhoneLe(q, last) {
        assert q in multiset(InsertPhone(init, p));
        assert q == p || q in init;
      }
      SortedSnoc(InsertPhone(init, p), last);
    }
  }

  lemma {:induction false} InsertIsStable(phones: seq<Phone>, p: Phone, primary: bool, kind: string)
    ensures OfKey(InsertPhone(phones, p), primary, kind) == OfKey(phones + [p], primary, kind)
  {
    if !(phones == [] || PhoneLe(phones[|phones| - 1], p)) {
      var init, last := phones[..|phones| - 1], phones[|phones| - 1];
      InsertIsStable(init, p, primary, kind);
      LexReflexive(p.kind);
      assert phones == init + [last];
      StableBehind(init, InsertPhone(init, p), last, p, primary, kind);
    }
  }

  /** If `p` was inserted stably before `last`, whose key differs, it still is with `last` behind. */
  lemma StableBehind(init: seq<Phone>, inserted: seq<Phone>, last: Phone, p: Phone, primary: bool, kind: string)
    requires OfKey(inserted, primary, kind) == OfKey(init + [p], primary, kind)
    requires last.primary != p.primary || last.kind != p.kind
    ensures OfKey(inserted + [last], primary, kind) == OfKey(init + [last] + [p], primary, kind)
  {
    OfKeySwap(init, last, p, primary, kind);
    OfKeySnoc(inserted, last, primary, kind);
  }

  /** Two neighbours of different keys may change places. */
  lemma OfKeySwap(phones: seq<Phone>, a: Phone, b: Phone, primary: bool, kind: string)
    requires a.primary != b.primary || a.kind != b.kind
    ensures OfKey(phones + [a] + [b], primary, kind)
         == var rest := OfKey(phones + [b], primary, kind);
            if a.primary == primary && a.kind == kind then rest + [a] else rest
  {
    OfKeySnoc(phones, a, primary, kind);
    OfKeySnoc(phones, b, primary, kind);
    OfKeySnoc(phones + [a], b, primary, kind);
  }

  lemma {:induction false} LexReflexive(a: string)
    ensures LexLe(a, a)
  {
    if a != "" { LexReflexive(a[1..]); }
  }

  lemma PhoneLeTransitive(a: Phone, b: Phone, c: Phone)
    requires PhoneLe(a, b) && PhoneLe(b, c)
    ensures PhoneLe(a, c)
  {
    if a.primary == b.primary && b.primary == c.primary { LexTransitive(a.kind, b.kind, c.kind); }
  }

  /** The sort keeps every phone, orders them, and keeps phones of one key in row order. */
  lemma {:induction false} SortIsStable(phones: seq<Phone>, primary: bool, kind: string)
    ensures PhonesSorted(SortPhones(phones)) && multiset(SortPhones(phones)) == multiset(phones)
    ensures OfKey(SortPhones(phones), primary, kind) == OfKey(phones, primary, kind)
  {
    if phones != [] {
      var init, last := phones[..|phones| - 1], phones[|phones| - 1];
      assert phones == init + [last];
      SortIsStable(init, primary, kind);
      InsertSorts(SortPhones(init), last);
      InsertKeepsAll(SortPhones(init), last);
      InsertIsStable(SortPhones(init), last, primary, kind);
      OfKeySnoc(init, last, primary, kind);
      OfKeySnoc(SortPhones(init), last, primary, kind);
    }
  }

  // --- contacts ---

  function ContactOf(rows: seq<PhoneRow>, dnc: set<string>, interactions: seq<nat>, voter: nat): Option<Contact> {
    var phones := PhonesOf(rows, dnc, voter);
    if phones == [] then None
    else Some(Contact(voter, CalculatePriorityScore(CountOf(interactions, voter)), SortPhones(phones)))
  }

  function ContactsOf(rows: seq<PhoneRow>, dnc: set<string>, interactions: seq<nat>, voters: seq<nat>): seq<Contact> {
    if voters == [] then []
    else
      var last := ContactOf(rows, dnc, interactions, voters[|voters| - 1]);
      var before := ContactsOf(rows, dnc, interactions, voters[..|voters| - 1]);
      if last.Some? then before + [last.value] else before
  }

  /** The voter's contact as the whole campaign's data give it. */
  function ContactFor(data: Data, campaign: nat, voter: nat): Option<Contact> {
    ContactOf(SelectPhones(data.phones, campaign, None), DncNumbers(data, campaign),
              SelectInteractions(data.interactions, campaign, None), voter)
  }

  /** Voters in the order in which their first callable phone row comes. */
  function VotersInOrder(rows: seq<PhoneRow>, dnc: set<string>): seq<nat> {
    if rows == [] then []
    else
      var last := rows[|rows| - 1];
      var before := VotersInOrder(rows[..|rows| - 1], dnc);
      if Callable(last, dnc) && last.voter !in before then before + [last.voter] else before
  }

  /** The contacts a generated list starts with; no voter list means the whole campaign. */
  function Generated(data: Data, campaign: nat, among: Option<seq<nat>>): seq<Contact> {
    var rows := SelectPhones(data.phones, campaign, among);
    var dnc := DncNumbers(data, campaign);
    ContactsOf(rows, dnc, SelectInteractions(data.interactions, campaign, among), VotersInOrder(rows, dnc))
  }

  function Candidates(present: set<nat>, source: seq<nat>): seq<nat> {
    if source == [] then []
    else
      var last := source[|source| - 1];
      var before := Candidates(present, source[..|source| - 1]);
      if last in present then before else before + [last]
  }

  /** The contacts an append adds, in source order. */
  function Appended(data: Data, campaign: nat, present: set<nat>, source: seq<nat>): seq<Contact> {
    var candidates := Candidates(present, source);
    ContactsOf(SelectPhones(data.phones, campaign, Some(candidates)), DncNumbers(data, campaign),
               SelectInteractions(data.interactions, campaign, Some(candidates)), candidates)
  }

  predicate Distinct(voters: seq<nat>) {
    forall i, j | 0 <= i < j < |voters| :: voters[i] != voters[j]
  }

  predicate DistinctVoters(contacts: seq<Contact>) {
    forall i, j | 0 <= i < j < |contacts| :: contacts[i].voter != contacts[j].voter
  }

  function VotersOf(contacts: seq<Contact>): set<nat> {
    set contact | contact in contacts :: contact.voter
  }

  // --- restricting the queries to some voters does not change what is said about them ---

  lemma {:induction false} SelectedPhones(rows: seq<PhoneRow>, campaign: nat, among: Option<seq<nat>>, dnc: set<string>, voter: nat)
    ensures PhonesOf(SelectPhones(rows, campaign, among), dnc, voter)
         == if Among(voter, among) then PhonesOf(SelectPhones(rows, campaign, None), dnc, voter) else []
  {
    if rows != [] {
      var init, last := rows[..|rows| - 1], rows[|rows| - 1];
      SelectedPhones(init, campaign, among, dnc, voter);
      PhonesSnoc(SelectPhones(init, campaign, among), last, dnc, voter);
      PhonesSnoc(SelectPhones(init, campaign, None), last, dnc, voter);
    }
  }

  lemma PhonesSnoc(rows: seq<PhoneRow>, row: PhoneRow, dnc: set<string>, voter: nat)
    ensures PhonesOf(rows + [row], dnc, voter) ==
              if row.voter == voter && Callable(row, dnc)
              then PhonesOf(rows, dnc, voter) + [Phone(row.id, row.value, row.kind, row.primary)]
              else PhonesOf(rows, dnc, voter)
  {
    assert (rows + [row])[..|rows|] == rows;
  }

  lemma {:induction false} SelectedInteractions(rows: seq<(nat, nat)>, campaign: nat, among: Option<seq<nat>>, voter: nat)
    requires Among(voter, among)
    ensures CountOf(SelectInteractions(rows, campaign, among), voter)
         == CountOf(SelectInteractions(rows, campaign, None), voter)
  {
    if rows != [] {
      var init, last := rows[..|rows| - 1], rows[|rows| - 1];
      SelectedInteractions(init, campaign, among, voter);
      CountSnoc(SelectInteractions(init, campaign, among), last.1, voter);
      CountSnoc(SelectInteractions(init, campaign, None), last.1, voter);
    }
  }

  lemma CountSnoc(voters: seq<nat>, last: nat, voter: nat)
    ensures CountOf(voters + [last], voter) == CountOf(voters, voter) + if last == voter then 1 else 0
  {
    assert (voters + [last])[..|voters|] == voters;
  }

  lemma SelectedContact(data: Data, campaign: nat, among: Option<seq<nat>>, voter: nat)
    ensures ContactOf(SelectPhones(data.phones, campaign, among), DncNumbers(data, campaign),
                      SelectInteractions(data.interactions, campaign, among), voter)
         == if Among(voter, among) then ContactFor(data, campaign, voter) else None
  {
    SelectedPhones(data.phones, campaign, among, DncNumbers(data, campaign), voter);
    if Among(voter, among) { SelectedInteractions(data.interactions, campaign, among, voter); }
  }

  // --- which contacts come out ---

  lemma {:induction false} ContactsAre(rows: seq<PhoneRow>, dnc: set<string>, interactions: seq<nat>, voters: seq<nat>)
    ensures forall contact :: contact in ContactsOf(rows, dnc, interactions, voters) <==>
              contact.voter in voters && ContactOf(rows, dnc, interactions, contact.voter) == Some(contact)
    ensures Distinct(voters) ==> DistinctVoters(ContactsOf(rows, dnc, interactions, voters))
    ensures |ContactsOf(rows, dnc, interactions, voters)| <= |voters|
  {
    if voters != [] {
      var init, last := voters[..|voters| - 1], voters[|voters| - 1];
      ContactsAre(rows, dnc, interactions, init);
      assert voters == init + [last];
      var contacts := ContactsOf(rows, dnc, interactions, init);
      if Distinct(voters) {
        forall i | 0 <= i < |contacts| ensures contacts[i].voter != last {
          assert contacts[i] in contacts;
        }
      }
    }
  }

  lemma {:induction false} VotersInOrderAre(rows: seq<PhoneRow>, dnc: set<string>)
    ensures Distinct(VotersInOrder(rows, dnc))
    ensures forall voter :: voter in VotersInOrder(rows, dnc) <==> PhonesOf(rows, dnc, voter) != []
  {
    if rows != [] { VotersInOrderAre(rows[..|rows| - 1], dnc); }
  }

  lemma {:induction false} CandidatesAre(present: set<nat>, source: seq<nat>)
    ensures forall voter :: voter in Candidates(present, source) <==> voter in source && voter !in present
    ensures Distinct(source) ==> Distinct(Candidates(present, source))
    ensures |Candidates(present, source)| <= |source|
  {
    if source != [] {
      CandidatesAre(present, source[..|source| - 1]);
      assert source == source[..|source| - 1] + [source[|source| - 1]];
    }
  }

  /** A generated list has every voter of the universe with a callable phone, once, with the campaign's contact. */
  lemma GeneratedAre(data: Data, campaign: nat, among: Option<seq<nat>>)
    ensures DistinctVoters(Generated(data, campaign, among))
    ensures forall contact :: contact in Generated(data, campaign, among) <==>
              (among.Some? ==> contact.voter in among.value) && ContactFor(data, campaign, contact.voter) == Some(contact)
  {
    var rows, dnc := SelectPhones(data.phones, campaign, among), DncNumbers(data, campaign);
    var interactions := SelectInteractions(data.interactions, campaign, among);
    VotersInOrderAre(rows, dnc);
    ContactsAre(rows, dnc, interactions, VotersInOrder(rows, dnc));
    forall contact: Contact {
      SelectedContact(data, campaign, among, contact.voter);
    }
  }

  /** An append adds every source voter that is not there yet and has a callable phone, once, with that contact. */
  lemma AppendedAre(data: Data, campaign: nat, present: set<nat>, source: seq<nat>)
    ensures Distinct(source) ==> DistinctVoters(Appended(data, campaign, present, source))
    ensures forall contact :: contact in Appended(data, campaign, present, source) <==>
              contact.voter in source && contact.voter !in present &&
              ContactFor(data, campaign, contact.voter) == Some(contact)
    ensures |Appended(data, campaign, present, source)| <= |Candidates(present, source)| <= |source|
  {
    var candidates := Candidates(present, source);
    var rows, dnc := SelectPhones(data.phones, campaign, Some(candidates)), DncNumbers(data, campaign);
    var interactions := SelectInteractions(data.interactions, campaign, Some(candidates));
    CandidatesAre(present, source);
    ContactsAre(rows, dnc, interactions, candidates);
    forall contact: Contact {
      SelectedContact(data, campaign, Some(candidates), contact.voter);
    }
  }

  /**
   Appending a static voter list to an empty call list and generating a call list
   from it give the same voters the same phones and priorities.
   */
  lemma AppendToEmptyIsGenerate(data: Data, campaign: nat, members: seq<nat>)
    requires Distinct(members)
    ensures var appended := Appended(data, campaign, {}, members); var generated := Generated(data, campaign, Some(members));
            DistinctVoters(appended) && DistinctVoters(generated) &&
            (forall contact :: contact in appended <==> contact in generated) && |appended| == |generated|
  {
    AppendedAre(data, campaign, {}, members);
    GeneratedAre(data, campaign, Some(members));
    SameSize(Appended(data, campaign, {}, members), Generated(data, campaign, Some(members)));
    SameSize(Generated(data, campaign, Some(members)), Appended(data, campaign, {}, members));
  }

  lemma {:induction false} SameSize(a: seq<Contact>, b: seq<Contact>)
    requires DistinctVoters(a) && forall contact | contact in a :: contact in b
    ensures |a| <= |b|
  {
    if a != [] {
      var n := |a| - 1;
      assert a[n] in a && a[n] in b;
      var k :| 0 <= k < |b| && b[k] == a[n];
      var rest := b[..k] + b[k + 1..];
      forall contact | contact in a[..n] ensures contact in rest {
        var i :| 0 <= i < n && a[i] == contact;
        assert contact in a && contact in b;
        var l :| 0 <= l < |b| && b[l] == contact;
        assert rest[if l < k then l else l - 1] == contact;
      }
      SameSize(a[..n], rest);
    }
  }

  /** Appending the same source again, with unchanged data, adds nothing. */
  lemma AppendAgainAddsNothing(data: Data, campaign: nat, present: set<nat>, source: seq<nat>)
    ensures Appended(data, campaign, present + VotersOf(Appended(data, campaign, present, source)), source) == []
  {
    var added := Appended(data, campaign, present, source);
    AppendedAre(data, campaign, present, source);
    forall voter | voter in source && voter !in present && ContactFor(data, campaign, voter).Some?
      ensures voter in VotersOf(added)
    {
      assert ContactFor(data, campaign, voter).value in added;
    }
    var candidates := Candidates(present + VotersOf(added), source);
    CandidatesAre(present + VotersOf(added), source);
    forall voter {
      SelectedContact(data, campaign, Some(candidates), voter);
    }
    NoContacts(SelectPhones(data.phones, campaign, Some(candidates)), DncNumbers(data, campaign),
               SelectInteractions(data.interactions, campaign, Some(candidates)), candidates);
  }

  lemma {:induction false} NoContacts(rows: seq<PhoneRow>, dnc: set<string>, interactions: seq<nat>, voters: seq<nat>)
    requires forall voter | voter in voters :: ContactOf(rows, dnc, interactions, voter) == None
    ensures ContactsOf(rows, dnc, interactions, voters) == []
  {
    if voters != [] { NoContacts(rows, dnc, interactions, voters[..|voters| - 1]); }
  }

  /** Every contact has phones, primary ones first, all of 10 to 15 digits and none on the campaign's DNC list. */
  predicate GoodPhones(phones: seq<Phone>, dnc: set<string>) {
    phones != [] && PhonesSorted(phones) &&
    forall p | p in phones :: ValidPhone(p.value) && p.value !in dnc
  }

  lemma {:induction false} PhonesAreCallable(rows: seq<PhoneRow>, dnc: set<string>, voter: nat)
    ensures forall p | p in PhonesOf(rows, dnc, voter) :: ValidPhone(p.value) && p.value !in dnc
  {
    if rows != [] { PhonesAreCallable(rows[..|rows| - 1], dnc, voter); }
  }

  /** A row of the campaign and the voter with a valid number that is not on the campaign's DNC list. */
  predicate CallableRow(data: Data, campaign: nat, voter: nat, row: PhoneRow) {
    row in data.phones && row.campaign == campaign && row.voter == voter &&
    10 <= |row.value| <= 15 && (forall i | 0 <= i < |row.value| :: row.value[i] in "0123456789") &&
    (campaign, row.value) !in data.dnc
  }

  lemma ValidInCharacters(value: string)
    ensures ValidPhone(value) <==> 10 <= |value| <= 15 && forall i | 0 <= i < |value| :: value[i] in "0123456789"
  {
    forall c: char ensures c in "0123456789" <==> '0' <= c <= '9' {
      IsDigit(c);
    }
  }

  lemma IsDigit(c: char)
    ensures c in "0123456789" <==> '0' <= c <= '9'
  {
    assert "0123456789" == ['0', '1', '2', '3', '4', '5', '6', '7', '8', '9'];
  }

  /** The interactions of the campaign with the voter. */
  function InteractionsWith(rows: seq<(nat, nat)>, campaign: nat, voter: nat): set<nat> {
    set i: nat | i < |rows| && rows[i] == (campaign, voter)
  }

  lemma InteractionsSnoc(rows: seq<(nat, nat)>, row: (nat, nat), campaign: nat, voter: nat)
    ensures InteractionsWith(rows + [row], campaign, voter) ==
            InteractionsWith(rows, campaign, voter) + if row == (campaign, voter) then {|rows|} else {}
  {
  }

  lemma {:induction false} CountIsNumber(rows: seq<(nat, nat)>, campaign: nat, voter: nat)
    ensures CountOf(SelectInteractions(rows, campaign, None), voter) == |InteractionsWith(rows, campaign, voter)|
  {
    if rows == [] {
      assert InteractionsWith(rows, campaign, voter) == {};
    } else {
      var init, last := rows[..|rows| - 1], rows[|rows| - 1];
      assert rows == init + [last];
      CountIsNumber(init, campaign, voter);
      CountSnoc(SelectInteractions(init, campaign, None), last.1, voter);
      InteractionsSnoc(init, last, campaign, voter);
    }
  }

  /** A contact's priority is 100 less 20 for each interaction of its campaign with its voter, but at least 0. */
  lemma ContactPriorityIs(data: Data, campaign: nat, voter: nat)
    requires ContactFor(data, campaign, voter).Some?
    ensures var contact := ContactFor(data, campaign, voter).value; var n := |InteractionsWith(data.interactions, campaign, voter)|;
            contact.voter == voter && contact.priority == if n > 5 then 0 else 100 - 20 * n
  {
    CountIsNumber(data.interactions, campaign, voter);
  }

  function AsPhone(row: PhoneRow): Phone {
    Phone(row.id, row.value, row.kind, row.primary)
  }

  predicate Yields(row: PhoneRow, campaign: nat, voter: nat, dnc: set<string>, p: Phone) {
    row.campaign == campaign && row.voter == voter && Callable(row, dnc) && AsPhone(row) == p
  }

  lemma {:induction false} PhonesAreRows(rows: seq<PhoneRow>, campaign: nat, dnc: set<string>, voter: nat, p: Phone)
    ensures p in PhonesOf(SelectPhones(rows, campaign, None), dnc, voter) <==>
              exists row :: row in rows && Yields(row, campaign, voter, dnc, p)
  {
    if rows != [] {
      var init, last := rows[..|rows| - 1], rows[|rows| - 1];
      PhonesAreRows(init, campaign, dnc, voter, p);
      PhonesSnoc(SelectPhones(init, campaign, None), last, dnc, voter);
      assert rows == init + [last];
      assert forall row :: row in rows <==> row in init || row == last;
      assert last.campaign == campaign && last.voter == voter && Callable(last, dnc) && AsPhone(last) == p <==>
             Yields(last, campaign, voter, dnc, p);
    }
  }

  lemma DncNumbersAre(data: Data, campaign: nat, value: string)
    ensures value in DncNumbers(data, campaign) <==> (campaign, value) in data.dnc
  {
    if (campaign, value) in data.dnc { assert (campaign, value).1 == value; }
  }

  ghost predicate HasRow(data: Data, campaign: nat, voter: nat, p: Phone) {
    exists row :: CallableRow(data, campaign, voter, row) && row.id == p.id && row.value == p.value &&
                  row.kind == p.kind && row.primary == p.primary
  }

  lemma PhonesHaveRows(data: Data, campaign: nat, voter: nat, p: Phone)
    ensures p in PhonesOf(SelectPhones(data.phones, campaign, None), DncNumbers(data, campaign), voter) <==>
              HasRow(data, campaign, voter, p)
  {
    var dnc := DncNumbers(data, campaign);
    PhonesAreRows(data.phones, campaign, dnc, voter, p);
    DncNumbersAre(data, campaign, p.value);
    ValidInCharacters(p.value);
    if row :| row in data.phones && Yields(row, campaign, voter, dnc, p) {
      assert CallableRow(data, campaign, voter, row);
    }
    if row :| CallableRow(data, campaign, voter, row) && row.id == p.id && row.value == p.value &&
              row.kind == p.kind && row.primary == p.primary {
      assert Yields(row, campaign, voter, dnc, p);
    }
  }

  /** A voter has a contact exactly if some row is callable, and its phones are exactly the callable rows. */
  lemma ContactPhonesAre(data: Data, campaign: nat, voter: nat, p: Phone)
    ensures HasRow(data, campaign, voter, p) <==>
              var contact := ContactFor(data, campaign, voter); contact.Some? && p in contact.value.phones
    ensures ContactFor(data, campaign, voter).Some? <==> exists row :: CallableRow(data, campaign, voter, row)
  {
    var phones := PhonesOf(SelectPhones(data.phones, campaign, None), DncNumbers(data, campaign), voter);
    PhonesHaveRows(data, campaign, voter, p);
    SortKeeps(phones, p);
    if phones != [] {
      PhonesHaveRows(data, campaign, voter, phones[0]);
    }
    if row :| CallableRow(data, campaign, voter, row) {
      PhonesHaveRows(data, campaign, voter, AsPhone(row));
      assert HasRow(data, campaign, voter, AsPhone(row));
    }
  }

  lemma SortKeeps(phones: seq<Phone>, p: Phone)
    ensures p in SortPhones(phones) <==> p in phones
  {
    SortIsStable(phones, true, "");
    assert p in multiset(SortPhones(phones)) <==> p in multiset(phones);
  }

  lemma ContactsHaveGoodPhones(data: Data, campaign: nat, contact: Contact)
    requires ContactFor(data, campaign, contact.voter) == Some(contact)
    ensures GoodPhones(contact.phones, DncNumbers(data, campaign))
  {
    var phones := PhonesOf(SelectPhones(data.phones, campaign, None), DncNumbers(data, campaign), contact.voter);
    PhonesAreCallable(SelectPhones(data.phones, campaign, None), DncNumbers(data, campaign), contact.voter);
    SortIsStable(phones, true, "");
    forall p | p in contact.phones ensures p in phones {
      SortKeeps(phones, p);
    }
    assert |multiset(contact.phones)| == |multiset(phones)|;
  }
}
