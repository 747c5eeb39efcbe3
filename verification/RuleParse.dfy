/**
 * How one `-A` line becomes a rule: the protocol, module and keyword bookkeeping of
 * `parse_option`.  Options arrive with their aliases resolved and their arguments read.
 */
module RuleParse {
  import opened Seqs
  import opened RuleTree

  type Keywords = map<string, Arity>

  /** The keyword tables an import consults. */
  datatype Tables = Tables(
    base: Keywords,
    protoDefs: map<string, Keywords>,
    matchDefs: map<string, Keywords>,
    targetDefs: map<string, Keywords>,
    portProtocols: set<string>,
    portKeywords: Keywords)

  datatype Opt =
    | Protocol(value: Value)
    | Match(name: string)
    | Known(option: string, shown: string, value: Value)
    | Jump(name: string)
    | Goto(name: string)

  datatype Outcome = Parsed | NotUnderstood | CannotNegate

  /** The rule under construction; after a jump, options land in the target section. */
  datatype Draft = Draft(matches: seq<Entry>, meta: Meta) {
    function Current(): seq<Entry> {
      if meta.target.Some? then meta.target.value else matches
    }

    function WithCurrent(entries: seq<Entry>): Draft {
      if meta.target.Some? then this.(meta := meta.(target := Some(entries))) else this.(matches := entries)
    }

    function Push(e: Entry): Draft {
      WithCurrent(Current() + [e])
    }

    function Learn(more: Keywords): Draft {
      this.(meta := meta.(keywords := meta.keywords + more))
    }
  }

  function Fresh(t: Tables): Draft {
    Draft([], Meta(t.base, {}, None, None, None, None, None))
  }

  function Canonical(proto: string): string {
    if proto == "ipv6-icmp" || proto == "icmpv6" then "icmp" else if proto == "ipv6-mh" then "mh" else proto
  }

  /** The protocol already names the module, so no `mod` entry is needed. */
  predicate Covers(proto: Option<Value>, name: string) {
    && proto.Some? && proto.value.Scalar?
    && (|| proto.value.text == name
        || ((proto.value.text == "ipv6-icmp" || proto.value.text == "icmpv6") && name == "icmp6"))
  }

  function LearnIf(d: Draft, defs: map<string, Keywords>, key: string): Draft {
    if key in defs then d.Learn(defs[key]) else d
  }

  function LearnPorts(d: Draft, t: Tables, proto: string): Draft {
    if proto in t.portProtocols then d.Learn(t.portKeywords) else d
  }

  function ProtocolStep(t: Tables, d: Draft, value: Value): Draft {
    var named := d.(meta := d.meta.(proto := Some(value))).Push(Entry("protocol", value));
    if value.Scalar? then LearnPorts(LearnIf(named, t.protoDefs, Canonical(value.text)), t, value.text) else named
  }

  function MatchStep(t: Tables, d: Draft, name: string): Draft {
    var loaded := d.(meta := d.meta.(mod := d.meta.mod + {name}));
    var pushed := if Covers(d.meta.proto, name) then loaded else loaded.Push(Entry("mod", Scalar(name)));
    var module_ := if name == "icmp6" then "icmpv6" else name;
    var learned := if module_ in t.matchDefs then pushed.Learn(t.matchDefs[module_])
                   else LearnIf(pushed, t.protoDefs, module_);
    LearnPorts(learned, t, name)
  }

  predicate MergesMulti(d: Draft, option: string, value: Value) {
    var cur := d.Current();
    value.Multi? && cur != [] && cur[|cur| - 1].name == option && cur[|cur| - 1].value.Multi?
  }

  function KnownStep(d: Draft, option: string, shown: string, value: Value): Draft {
    var cur := d.Current();
    if MergesMulti(d, option, value) then
      d.WithCurrent(cur[..|cur| - 1] + [Entry(option, Multi(cur[|cur| - 1].value.values + value.values))])
    else d.Push(Entry(shown, value))
  }

  function JumpStep(t: Tables, d: Draft, name: string): Draft {
    var jumped := d.(meta := d.meta.(jump := Some(name), target := Some([]),
                                     matchKeywords := Some(d.meta.keywords), keywords := map[]));
    LearnIf(jumped, t.targetDefs, name)
  }

  /** The effect of one understood option. */
  function Step(t: Tables, d: Draft, o: Opt): Draft {
    match o
    case Protocol(value) => ProtocolStep(t, d, value)
    case Match(name) => MatchStep(t, d, name)
    case Known(option, shown, value) => KnownStep(d, option, shown, value)
    case Jump(name) => JumpStep(t, d, name)
    case Goto(name) => d.(meta := d.meta.(goto := Some(name)))
  }

  /** Whether a leading `!` is used up: protocols and keyword arguments carry it in their value. */
  function Judge(d: Draft, o: Opt, negated: bool): Outcome {
    if o.Known? && o.option !in d.meta.keywords then NotUnderstood
    else if negated && !o.Protocol? && !o.Known? then CannotNegate
    else Parsed
  }

  /** The working rule of the importer. */
  class RuleBuilder {
    const tables: Tables
    var matches: seq<Entry>
    var target: Option<seq<Entry>>
    var keywords: Keywords
    var mod: set<string>
    var proto: Option<Value>
    var jump: Option<string>
    var goto: Option<string>
    var matchKeywords: Option<Keywords>

    ghost function Contents(): Draft
      reads this
    {
      Draft(matches, Meta(keywords, mod, proto, jump, goto, target, matchKeywords))
    }

    constructor (t: Tables)
      ensures tables == t && Contents() == Fresh(t)
    {
      tables := t;
      matches, target, keywords := [], None, t.base;
      mod, proto, jump, goto, matchKeywords := {}, None, None, None, None;
    }

    method Push(e: Entry)
      modifies this
      ensures Contents() == old(Contents()).Push(e)
    {
      if target.Some? {
        target := Some(target.value + [e]);
      } else {
        matches := matches + [e];
      }
    }

    method Learn(more: Keywords)
      modifies this`keywords
      ensures Contents() == old(Contents()).Learn(more)
    {
      keywords := keywords + more;
    }

    method ParseOption(o: Opt, negated: bool) returns (outcome: Outcome)
      modifies this
      ensures outcome == Judge(old(Contents()), o, negated)
      ensures outcome.NotUnderstood? ==> Contents() == old(Contents())
      ensures !outcome.NotUnderstood? ==> Contents() == Step(tables, old(Contents()), o)
    {
      outcome := Parsed;
      match o {
        case Protocol(value) =>
          proto := Some(value);
          Push(Entry("protocol", value));
          if value.Scalar? {
            var name := Canonical(value.text);
            if name in tables.protoDefs { Learn(tables.protoDefs[name]); }
            if value.text in tables.portProtocols { Learn(tables.portKeywords); }
          }
        case Match(name) =>
          mod := mod + {name};
          if !Covers(proto, name) { Push(Entry("mod", Scalar(name))); }
          var key := if name == "icmp6" then "icmpv6" else name;
          if key in tables.matchDefs { Learn(tables.matchDefs[key]); }
          else if key in tables.protoDefs { Learn(tables.protoDefs[key]); }
          if name in tables.portProtocols { Learn(tables.portKeywords); }
          if negated { outcome := CannotNegate; }
        case Known(option, shown, value) =>
          if option !in keywords { return NotUnderstood; }
          var cur := if target.Some? then target.value else matches;
          if value.Multi? && cur != [] && cur[|cur| - 1].name == option && cur[|cur| - 1].value.Multi? {
            cur := cur[..|cur| - 1] + [Entry(option, Multi(cur[|cur| - 1].value.values + value.values))];
            if target.Some? { target := Some(cur); } else { matches := cur; }
          } else {
            Push(Entry(shown, value));
          }
        case Jump(name) =>
          jump, target := Some(name), Some([]);
          matchKeywords, keywords := Some(keywords), map[];
          if name in tables.targetDefs { Learn(tables.targetDefs[name]); }
          if negated { outcome := CannotNegate; }
        case Goto(name) =>
          goto := Some(name);
          if negated { outcome := CannotNegate; }
      }
    }
  }
}
