/**
  Structural matching of values against schemas: which optional SEQUENCE members
  are present is decided by backtracking.  The methods follow the source's loops;
  they are proved against `Conforms` and `IsBinding`, which mention no search order.
 */
module SchemaMatching {
  import opened Wrappers
  import opened Asn1Model

  // -- What matching means ---------------------------------------------------

  /** Per member, the component placed on it, or None for an absent member. */
  type Binding = seq<Option<Asn1>>

  /** The components a binding places, in member order. */
  ghost function Present(binding: Binding): seq<Asn1> {
    if binding == [] then []
    else if binding[0].Some? then [binding[0].value] + Present(binding[1..])
    else Present(binding[1..])
  }

  /**
    A value conforms to a struct when its components can be laid over the members
    in order, none left over, leaving only optional members empty.
   */
  ghost predicate Conforms(value: Asn1, schema: Schema)
    decreases schema
  {
    match schema
    case Utf8 => value.Str?
    case Oid => value.Oid?
    case OctetString => value.Octets?
    case Date => value.Date?
    case Context(tag, inner) => value.Context? && value.tag == tag && Conforms(value.content, inner)
    case Optional(member) => Conforms(value, member)
    case Choice(alternatives) => exists i :: 0 <= i < |alternatives| && Conforms(value, alternatives[i])
    case SequenceOf(element) => value.Seq? && forall i :: 0 <= i < |value.items| ==> Conforms(value.items[i], element)
    case Struct(fields) =>
      value.Seq? && exists b: Binding ::
        Present(b) == value.items && |b| == |fields|
        && forall i :: 0 <= i < |b| ==>
             if b[i].Some? then Conforms(b[i].value, fields[i].schema) else fields[i].schema.Optional?
  }

  /** An order-preserving assignment of `components` to the member `schemas`. */
  ghost predicate IsBinding(components: seq<Asn1>, schemas: seq<Schema>, b: Binding) {
    Present(b) == components && |b| == |schemas|
    && forall i :: 0 <= i < |b| ==>
         if b[i].Some? then Conforms(b[i].value, schemas[i]) else schemas[i].Optional?
  }

  /** `a` equals `b`, or at the first member where they differ `a` has it present. */
  ghost predicate Prefers(a: Binding, b: Binding)
    requires |a| == |b|
  {
    a == b || exists k :: 0 <= k < |a| && a[..k] == b[..k] && a[k].Some? && b[k].None?
  }

  /** The binding that has the earliest possible members present. */
  ghost predicate IsPreferred(components: seq<Asn1>, schemas: seq<Schema>, b: Binding) {
    IsBinding(components, schemas, b)
    && forall other :: IsBinding(components, schemas, other) ==> Prefers(b, other)
  }

  ghost predicate Matchable(components: seq<Asn1>, schemas: seq<Schema>) {
    exists b :: IsBinding(components, schemas, b)
  }

  /** `out` is the preferred binding with the trailing absent members cut. */
  ghost predicate IsMatch(components: seq<Asn1>, schemas: seq<Schema>, out: Binding) {
    exists b :: IsPreferred(components, schemas, b) && out == TrimAbsent(b)
  }

  /** Drops the absent members at the end. */
  function TrimAbsent(b: Binding): Binding {
    if b != [] && b[|b| - 1].None? then TrimAbsent(b[..|b| - 1]) else b
  }

  function Schemas(fields: seq<Field>): seq<Schema> {
    seq(|fields|, i requires 0 <= i < |fields| => fields[i].schema)
  }

  lemma StructConforms(items: seq<Asn1>, fields: seq<Field>)
    ensures Conforms(Seq(items), Struct(fields)) <==> Matchable(items, Schemas(fields))
  {
    if Conforms(Seq(items), Struct(fields)) {
      var b: Binding :| Present(b) == items && |b| == |fields|
        && forall i :: 0 <= i < |b| ==>
             if b[i].Some? then Conforms(b[i].value, fields[i].schema) else fields[i].schema.Optional?;
      assert IsBinding(items, Schemas(fields), b);
    }
    if Matchable(items, Schemas(fields)) {
      var b :| IsBinding(items, Schemas(fields), b);
      assert forall i :: 0 <= i < |b| ==> Schemas(fields)[i] == fields[i].schema;
    }
  }

  // -- A reference search ----------------------------------------------------

  /** Member by member: present if that can be completed, else absent. */
  ghost function Bind(components: seq<Asn1>, schemas: seq<Schema>): (b: Option<Binding>)
    ensures b.Some? ==> |b.value| == |schemas|
    decreases |schemas|
  {
    if schemas == [] then
      if components == [] then Some([]) else None
    else if components != [] && Conforms(components[0], schemas[0])
            && Bind(components[1..], schemas[1..]).Some? then
      Some([Some(components[0])] + Bind(components[1..], schemas[1..]).value)
    else if schemas[0].Optional? && Bind(components, schemas[1..]).Some? then
      Some([None] + Bind(components, schemas[1..]).value)
    else None
  }

  lemma {:induction false} BindSound(components: seq<Asn1>, schemas: seq<Schema>)
    requires Bind(components, schemas).Some?
    ensures IsBinding(components, schemas, Bind(components, schemas).value)
    decreases |schemas|
  {
    if schemas != [] {
      var rest := if components != [] && Conforms(components[0], schemas[0])
                     && Bind(components[1..], schemas[1..]).Some? then components[1..] else components;
      BindSound(rest, schemas[1..]);
      var b := Bind(components, schemas).value;
      assert b[1..] == Bind(rest, schemas[1..]).value;
      forall i | 0 <= i < |b|
        ensures if b[i].Some? then Conforms(b[i].value, schemas[i]) else schemas[i].Optional?
      {
        if i > 0 { assert b[i] == b[1..][i - 1] && schemas[i] == schemas[1..][i - 1]; }
      }
    }
  }

  lemma TailBinds(components: seq<Asn1>, schemas: seq<Schema>, b: Binding)
    requires IsBinding(components, schemas, b) && b != []
    ensures IsBinding(if b[0].Some? then components[1..] else components, schemas[1..], b[1..])
    ensures b[0].Some? ==> components != [] && b[0].value == components[0] && Conforms(components[0], schemas[0])
    ensures b[0].None? ==> schemas[0].Optional?
  {
    var tail := b[1..];
    forall i | 0 <= i < |tail|
      ensures if tail[i].Some? then Conforms(tail[i].value, schemas[1..][i]) else schemas[1..][i].Optional?
    {
      assert tail[i] == b[i + 1] && schemas[1..][i] == schemas[i + 1];
    }
  }

  lemma PrefersCons(head: Option<Asn1>, a: Binding, b: Binding)
    requires |a| == |b| && Prefers(a, b)
    ensures Prefers([head] + a, [head] + b)
  {
    if a != b {
      var k :| 0 <= k < |a| && a[..k] == b[..k] && a[k].Some? && b[k].None?;
      assert ([head] + a)[..k + 1] == [head] + a[..k] && ([head] + b)[..k + 1] == [head] + b[..k];
      assert ([head] + a)[k + 1] == a[k] && ([head] + b)[k + 1] == b[k];
    }
  }

  lemma PrefersPresent(a: Binding, b: Binding)
    requires |a| == |b| && a != [] && a[0].Some? && b[0].None?
    ensures Prefers(a, b)
  {
    assert a[..0] == b[..0];
  }

  lemma {:induction false} BindComplete(components: seq<Asn1>, schemas: seq<Schema>, other: Binding)
    requires IsBinding(components, schemas, other)
    ensures Bind(components, schemas).Some? && Prefers(Bind(components, schemas).value, other)
    decreases |schemas|
  {
    if schemas != [] {
      TailBinds(components, schemas, other);
      var tail := other[1..];
      var rest := if other[0].Some? then components[1..] else components;
      BindComplete(rest, schemas[1..], tail);
      var b := Bind(components, schemas).value;
      assert other == [other[0]] + tail;
      if b[0] == other[0] {
        assert b == [b[0]] + Bind(rest, schemas[1..]).value;
        PrefersCons(b[0], Bind(rest, schemas[1..]).value, tail);
      } else {
        PrefersPresent(b, other);
      }
    }
  }

  /** The search finds a binding exactly when one exists, and then the preferred one. */
  lemma BindIsPreferred(components: seq<Asn1>, schemas: seq<Schema>)
    ensures Bind(components, schemas).Some? <==> Matchable(components, schemas)
    ensures Bind(components, schemas).Some? ==>
              IsPreferred(components, schemas, Bind(components, schemas).value)
              && IsMatch(components, schemas, TrimAbsent(Bind(components, schemas).value))
  {
    if Matchable(components, schemas) {
      var b :| IsBinding(components, schemas, b);
      BindComplete(components, schemas, b);
    }
    if Bind(components, schemas).Some? {
      BindSound(components, schemas);
      forall other | IsBinding(components, schemas, other)
        ensures Prefers(Bind(components, schemas).value, other)
      {
        BindComplete(components, schemas, other);
      }
    }
  }

  // -- Facts the matcher's loop relies on ------------------------------------

  function CountRequired(schemas: seq<Schema>): nat {
    if schemas == [] then 0
    else (if schemas[0].Optional? then 0 else 1) + CountRequired(schemas[1..])
  }

  function RequiredMembers(schemas: seq<Schema>): set<nat> {
    set i: nat | i < |schemas| && !schemas[i].Optional?
  }

  /** The lower bound is the number of required members. */
  lemma {:induction false} CountsRequired(schemas: seq<Schema>)
    ensures CountRequired(schemas) == |RequiredMembers(schemas)|
    decreases |schemas|
  {
    if schemas != [] {
      var k := |schemas| - 1;
      CountsRequired(schemas[..k]);
      CountRequiredSnoc(schemas[..k], schemas[k]);
      assert schemas == schemas[..k] + [schemas[k]];
      assert RequiredMembers(schemas) ==
        RequiredMembers(schemas[..k]) + (if schemas[k].Optional? then {} else {k});
    }
  }

  lemma {:induction false} CountRequiredSnoc(schemas: seq<Schema>, last: Schema)
    ensures CountRequired(schemas + [last]) == CountRequired(schemas) + if last.Optional? then 0 else 1
  {
    if schemas == [] {
      assert schemas + [last] == [last] && [last][1..] == [];
    } else {
      assert (schemas + [last])[1..] == schemas[1..] + [last];
      CountRequiredSnoc(schemas[1..], last);
    }
  }

  predicate CountInBounds(components: seq<Asn1>, schemas: seq<Schema>) {
    CountRequired(schemas) <= |components| <= |schemas|
  }

  lemma {:induction false} BoundCount(components: seq<Asn1>, schemas: seq<Schema>)
    requires Bind(components, schemas).Some?
    ensures CountInBounds(components, schemas)
    decreases |schemas|
  {
    if schemas != [] {
      if components != [] && Conforms(components[0], schemas[0]) && Bind(components[1..], schemas[1..]).Some? {
        BoundCount(components[1..], schemas[1..]);
      } else {
        BoundCount(components, schemas[1..]);
      }
    }
  }

  /** The search from member `index` on, every earlier member having taken its own component. */
  ghost function BindFrom(components: seq<Asn1>, schemas: seq<Schema>, index: nat): Option<Binding>
    requires index <= |schemas|
  {
    Bind(if index < |components| then components[index..] else [], schemas[index..])
  }

  /** What one member contributes when no backtracking is called for. */
  ghost function One(components: seq<Asn1>, schemas: seq<Schema>, index: nat): Result<Option<Asn1>, SchemaCodecError>
    requires index < |schemas|
  {
    Against(if index < |components| then Some(components[index]) else None, schemas[index])
  }

  ghost function Against(component: Option<Asn1>, schema: Schema): Result<Option<Asn1>, SchemaCodecError> {
    match component
    case None => if schema.Optional? then Ok(None) else Err(SchemaMismatch)
    case Some(value) => if Conforms(value, schema) then Ok(component) else Err(SchemaMismatch)
  }

  lemma UnambiguousStep(components: seq<Asn1>, schemas: seq<Schema>, index: nat)
    requires index < |schemas| && |components| <= |schemas|
    requires !(schemas[index].Optional? && index < |schemas| - 1 && index < |components|)
    ensures BindFrom(components, schemas, index) ==
              if One(components, schemas, index).Ok? && BindFrom(components, schemas, index + 1).Some?
              then Some([One(components, schemas, index).value] + BindFrom(components, schemas, index + 1).value)
              else None
  {
    var rest := if index < |components| then components[index..] else [];
    var rest' := if index + 1 < |components| then components[index + 1..] else [];
    assert schemas[index..][1..] == schemas[index + 1..] && schemas[index..][0] == schemas[index];
    if index < |components| {
      assert rest[1..] == rest' && rest[0] == components[index];
      if schemas[index].Optional? {
        assert schemas[index + 1..] == [];
        assert Bind(rest, schemas[index + 1..]).None?;
      }
    }
    assert BindFrom(components, schemas, index) == Bind(rest, schemas[index..]);
    assert BindFrom(components, schemas, index + 1) == Bind(rest', schemas[index + 1..]);
  }

  /** Consuming a component as an optional member is matching the member inside. */
  lemma PeelOptional(components: seq<Asn1>, member: Schema, rest: seq<Schema>)
    ensures var peeled := Bind(components, [member] + rest);
            Bind(components, [Schema.Optional(member)] + rest) ==
              if peeled.Some? then peeled
              else if Bind(components, rest).Some? then Some([None] + Bind(components, rest).value)
              else None
  {
    assert ([member] + rest)[1..] == rest;
    assert ([Schema.Optional(member)] + rest)[1..] == rest;
  }

  lemma {:induction false} TrimSuffix(head: Binding, tail: Binding)
    ensures TrimAbsent(head + TrimAbsent(tail)) == TrimAbsent(head + tail)
    decreases |tail|
  {
    if tail != [] && tail[|tail| - 1].None? {
      assert (head + tail)[..|head + tail| - 1] == head + tail[..|tail| - 1];
      TrimSuffix(head, tail[..|tail| - 1]);
    }
  }

  lemma TrimTwice(b: Binding)
    ensures TrimAbsent(TrimAbsent(b)) == TrimAbsent(b)
  {
    TrimSuffix([], b);
    assert [] + TrimAbsent(b) == TrimAbsent(b) && [] + b == b;
  }

  lemma TrimTail(head: Binding, tail: Binding, tail': Binding)
    requires TrimAbsent(tail) == TrimAbsent(tail')
    ensures TrimAbsent(head + tail) == TrimAbsent(head + tail')
  {
    TrimSuffix(head, tail);
    TrimSuffix(head, tail');
  }

  ghost function Prepend(head: Binding, rest: Option<Binding>): Option<Binding> {
    if rest.Some? then Some(head + rest.value) else None
  }

  lemma PrependMore(head: Binding, one: Option<Asn1>, rest: Option<Binding>)
    ensures Prepend(head, Prepend([one], rest)) == Prepend(head + [one], rest)
  {
    if rest.Some? {
      assert head + ([one] + rest.value) == head + [one] + rest.value;
    }
  }

  lemma BindStart(components: seq<Asn1>, schemas: seq<Schema>)
    ensures Bind(components, schemas) == Prepend([], BindFrom(components, schemas, 0))
  {
    assert schemas[0..] == schemas;
    assert (if 0 < |components| then components[0..] else []) == components;
    if Bind(components, schemas).Some? {
      assert [] + Bind(components, schemas).value == Bind(components, schemas).value;
    }
  }

  lemma BindEnd(components: seq<Asn1>, schemas: seq<Schema>)
    requires |components| <= |schemas|
    ensures BindFrom(components, schemas, |schemas|) == Some([])
  {
  }

  // -- Termination -----------------------------------------------------------

  function Size(schema: Schema): (n: nat)
    ensures n > 0
    decreases schema
  {
    match schema
    case Context(_, inner) => 1 + Size(inner)
    case Optional(member) => 1 + Size(member)
    case Choice(alternatives) => 1 + Total(alternatives)
    case SequenceOf(element) => 1 + Size(element)
    case Struct(fields) => 1 + FieldsTotal(fields)
    case _ => 1
  }

  function Total(schemas: seq<Schema>): nat
    decreases schemas
  {
    if schemas == [] then 0 else Size(schemas[0]) + Total(schemas[1..])
  }

  function FieldsTotal(fields: seq<Field>): nat
    decreases fields
  {
    if fields == [] then 0 else Size(fields[0].schema) + FieldsTotal(fields[1..])
  }

  lemma {:induction false} TotalOfFields(fields: seq<Field>)
    ensures Total(Schemas(fields)) == FieldsTotal(fields)
  {
    if fields != [] {
      assert Schemas(fields)[1..] == Schemas(fields[1..]);
      TotalOfFields(fields[1..]);
    }
  }

  lemma {:induction false} TotalSplit(schemas: seq<Schema>, k: nat)
    requires k < |schemas|
    ensures Total(schemas) >= Size(schemas[k]) + Total(schemas[k + 1..])
  {
    if k > 0 {
      TotalSplit(schemas[1..], k - 1);
      assert schemas[1..][k..] == schemas[k + 1..];
    }
  }

  // -- The matcher -----------------------------------------------------------

  method Matches(value: Asn1, schema: Schema) returns (ok: bool)
    ensures ok == Conforms(value, schema)
    decreases Size(schema), 0
  {
    match schema {
      case Optional(member) => ok := Matches(value, member);
      case Context(tag, inner) =>
        if value.Context? && value.tag == tag {
          ok := Matches(value.content, inner);
        } else {
          ok := false;
        }
      case Choice(alternatives) =>
        for i := 0 to |alternatives|
          invariant forall j :: 0 <= j < i ==> !Conforms(value, alternatives[j])
        {
          TotalSplit(alternatives, i);
          var found := Matches(value, alternatives[i]);
          if found {
            return true;
          }
        }
        ok := false;
      case SequenceOf(element) =>
        if !value.Seq? {
          return false;
        }
        for i := 0 to |value.items|
          invariant forall j :: 0 <= j < i ==> Conforms(value.items[j], element)
        {
          var each := Matches(value.items[i], element);
          if !each {
            return false;
          }
        }
        ok := true;
      case Struct(fields) =>
        if !value.Seq? {
          return false;
        }
        TotalOfFields(fields);
        var matched := MatchTuple(value.items, Schemas(fields));
        StructConforms(value.items, fields);
        ok := matched.Ok?;
      case Utf8 => ok := value.Str?;
      case Oid => ok := value.Oid?;
      case OctetString => ok := value.Octets?;
      case Date => ok := value.Date?;
    }
  }

  /**
    Succeeds exactly when the components have an order-preserving assignment, and
    then returns the preferred one with the trailing absent members cut.
   */
  method MatchTuple(components: seq<Asn1>, schemas: seq<Schema>) returns (r: Result<Binding, SchemaCodecError>)
    ensures r.Ok? <==> Matchable(components, schemas)
    ensures r.Ok? ==> IsMatch(components, schemas, r.value)
    ensures |components| < |RequiredMembers(schemas)| || |components| > |schemas| ==> r == Err(ComponentCountOutOfBounds)
    ensures r.Ok? <==> Bind(components, schemas).Some?
    ensures r.Ok? ==> r.value == TrimAbsent(Bind(components, schemas).value)
    decreases Total(schemas), 4
  {
    BindIsPreferred(components, schemas);
    CountsRequired(schemas);
    if !CountInBounds(components, schemas) {
      if Bind(components, schemas).Some? { BoundCount(components, schemas); }
      return Err(ComponentCountOutOfBounds);
    }
    var matched := MatchMembers(components, schemas);
    if matched.Err? {
      return matched;
    }
    var out := CutAbsent(matched.value);
    r := Ok(out);
  }

  /** Takes the members in turn until one needs backtracking, which then settles all that is left. */
  method MatchMembers(components: seq<Asn1>, schemas: seq<Schema>) returns (r: Result<Binding, SchemaCodecError>)
    requires |components| <= |schemas|
    ensures r.Ok? <==> Bind(components, schemas).Some?
    ensures r.Ok? ==> TrimAbsent(r.value) == TrimAbsent(Bind(components, schemas).value)
    decreases Total(schemas), 3
  {
    var out: Binding := [];
    BindStart(components, schemas);
    for index := 0 to |schemas|
      invariant Bind(components, schemas) == Prepend(out, BindFrom(components, schemas, index))
    {
      var schema := schemas[index];
      TotalSplit(schemas, index);
      if schema.Optional? && index < |schemas| - 1 && index < |components| {
        var resolved := ResolveAmbiguousOptional(components, schemas, index);
        if resolved.Err? {
          return resolved;
        }
        TrimTail(out, resolved.value, BindFrom(components, schemas, index).value);
        return Ok(out + resolved.value);
      }

      var component := if index < |components| then Some(components[index]) else None;
      UnambiguousStep(components, schemas, index);
      var one := AgainstOne(component, schema);
      if one.Err? {
        return Err(one.error);
      }
      PrependMore(out, one.value, BindFrom(components, schemas, index + 1));
      out := out + [one.value];
    }
    BindEnd(components, schemas);
    assert out + [] == out;
    r := Ok(out);
  }

  /** Pops the absent members off the end. */
  method CutAbsent(matched: Binding) returns (out: Binding)
    ensures out == TrimAbsent(matched)
    ensures out <= matched && (out != [] ==> out[|out| - 1].Some?)
    ensures forall i :: |out| <= i < |matched| ==> matched[i].None?
  {
    out := matched;
    while out != [] && out[|out| - 1].None?
      invariant TrimAbsent(out) == TrimAbsent(matched)
      invariant out <= matched && forall i :: |out| <= i < |matched| ==> matched[i].None?
    {
      out := out[..|out| - 1];
    }
  }

  /** Tries the component as this member first, and only then leaves it absent. */
  method ResolveAmbiguousOptional(components: seq<Asn1>, schemas: seq<Schema>, index: nat)
    returns (r: Result<Binding, SchemaCodecError>)
    requires index < |components| && index < |schemas| && schemas[index].Optional?
    ensures r.Ok? <==> Matchable(components[index..], schemas[index..])
    ensures r.Ok? ==> IsMatch(components[index..], schemas[index..], TrimAbsent(r.value))
    ensures r.Ok? <==> BindFrom(components, schemas, index).Some?
    ensures r.Ok? ==> TrimAbsent(r.value) == TrimAbsent(BindFrom(components, schemas, index).value)
    decreases Total(schemas), 2
  {
    var head := components[index..];
    var remaining := schemas[index + 1..];
    var member := schemas[index].member;
    TotalSplit(schemas, index);
    assert ([member] + remaining)[1..] == remaining;
    assert schemas[index..] == [schemas[index]] + remaining;
    PeelOptional(head, member, remaining);
    BindIsPreferred(head, schemas[index..]);

    var present := MatchTuple(head, [member] + remaining);
    if present.Ok? {
      TrimTwice(Bind(head, [member] + remaining).value);
      return present;
    }
    var absent := MatchTuple(head, remaining);
    if absent.Err? {
      return absent;
    }
    TrimSuffix([None], Bind(head, remaining).value);
    r := Ok([None] + absent.value);
  }

  method AgainstOne(component: Option<Asn1>, schema: Schema) returns (r: Result<Option<Asn1>, SchemaCodecError>)
    ensures r == Against(component, schema)
    decreases Size(schema), 1
  {
    match component {
      case None => r := if schema.Optional? then Ok(None) else Err(SchemaMismatch);
      case Some(value) =>
        var ok := Matches(value, schema);
        r := if ok then Ok(component) else Err(SchemaMismatch);
    }
  }

  // -- Stripping context tags ------------------------------------------------

  function UnwrapSingle(schema: Schema): Schema {
    if schema.Context? then schema.inner else schema
  }

  function UnwrapField(schema: Schema): Schema {
    if schema.Optional? then Schema.Optional(UnwrapSingle(schema.member)) else UnwrapSingle(schema)
  }

  function UnwrapContextTags(schema: Schema): Schema {
    if schema.Struct? then
      Struct(seq(|schema.fields|, i requires 0 <= i < |schema.fields| =>
        Field(schema.fields[i].name, UnwrapField(schema.fields[i].schema))))
    else schema
  }

  /** Unwrapping keeps every member in its place under its name, and leaves what is not a struct alone. */
  lemma UnwrapKeepsNames(schema: Schema)
    ensures !schema.Struct? ==> UnwrapContextTags(schema) == schema
    ensures schema.Struct? ==>
              var unwrapped := UnwrapContextTags(schema);
              && unwrapped.Struct? && |unwrapped.fields| == |schema.fields|
              && forall i :: 0 <= i < |schema.fields| ==> unwrapped.fields[i].name == schema.fields[i].name
  {
  }

  /** Whether a member carries the context layer that `UnwrapField` strips. */
  predicate IsTagged(schema: Schema) {
    schema.Context? || (schema.Optional? && schema.member.Context?)
  }

  function TagOf(schema: Schema): Byte
    requires IsTagged(schema)
  {
    if schema.Context? then schema.tag else schema.member.tag
  }

  /** Removes the context wrapper of every component placed on a tagged member. */
  ghost function Strip(b: Binding, schemas: seq<Schema>): (s: Binding)
    requires |b| == |schemas|
  {
    seq(|b|, i requires 0 <= i < |b| =>
      if b[i].Some? && IsTagged(schemas[i]) && b[i].value.Context? then Some(b[i].value.content) else b[i])
  }

  /** Puts the wrappers back. */
  ghost function Wrap(b: Binding, schemas: seq<Schema>): Binding
    requires |b| == |schemas|
  {
    seq(|b|, i requires 0 <= i < |b| =>
      if b[i].Some? && IsTagged(schemas[i]) then Some(Asn1.Context(TagOf(schemas[i]), b[i].value)) else b[i])
  }

  function UnwrapAll(schemas: seq<Schema>): seq<Schema> {
    seq(|schemas|, i requires 0 <= i < |schemas| => UnwrapField(schemas[i]))
  }

  /** Stripping keeps a binding a binding, over the unwrapped members. */
  lemma StripBinds(components: seq<Asn1>, schemas: seq<Schema>, b: Binding)
    requires IsBinding(components, schemas, b)
    ensures IsBinding(Present(Strip(b, schemas)), UnwrapAll(schemas), Strip(b, schemas))
    ensures Wrap(Strip(b, schemas), schemas) == b
  {
    var s := Strip(b, schemas);
    forall i | 0 <= i < |s|
      ensures if s[i].Some? then Conforms(s[i].value, UnwrapAll(schemas)[i]) else UnwrapAll(schemas)[i].Optional?
      ensures Wrap(s, schemas)[i] == b[i]
    {
      assert if b[i].Some? then Conforms(b[i].value, schemas[i]) else schemas[i].Optional?;
    }
  }

  /**
    A struct value with its tagged members' wrappers removed conforms to the
    unwrapped schema, however the stripping makes members collide: the matcher
    then accepts it, since it accepts whatever conforms.
   */
  lemma UnwrappedConforms(items: seq<Asn1>, fields: seq<Field>, b: Binding)
    requires IsBinding(items, Schemas(fields), b)
    ensures Conforms(Seq(Present(Strip(b, Schemas(fields)))), UnwrapContextTags(Struct(fields)))
  {
    StripBinds(items, Schemas(fields), b);
    var unwrapped := UnwrapContextTags(Struct(fields)).fields;
    assert Schemas(unwrapped) == UnwrapAll(Schemas(fields));
    StructConforms(Present(Strip(b, Schemas(fields))), unwrapped);
  }

  /**
    Conversely a binding over the unwrapped members re-wraps to one over the
    original members exactly when it leaves no required original member empty
    (unwrapping `[t] OPTIONAL-inside` makes a required member skippable).
   */
  lemma RewrapBinds(components: seq<Asn1>, schemas: seq<Schema>, s: Binding)
    requires IsBinding(components, UnwrapAll(schemas), s)
    ensures IsBinding(Present(Wrap(s, schemas)), schemas, Wrap(s, schemas))
            <==> forall i :: 0 <= i < |s| && s[i].None? ==> schemas[i].Optional?
    ensures Strip(Wrap(s, schemas), schemas) == s
  {
    var w := Wrap(s, schemas);
    forall i | 0 <= i < |s|
      ensures w[i].Some? ==> Conforms(w[i].value, schemas[i])
      ensures w[i].Some? == s[i].Some?
    {
      assert if s[i].Some? then Conforms(s[i].value, UnwrapAll(schemas)[i]) else UnwrapAll(schemas)[i].Optional?;
    }
  }

  /** A required `[0]` around an optional text becomes skippable: nothing matches it unwrapped only. */
  lemma RequiredMemberLost(schemas: seq<Schema>)
    requires schemas == [Schema.Context(0, Schema.Optional(Utf8))]
    ensures IsBinding([], UnwrapAll(schemas), [None]) && !Matchable([], schemas)
    ensures !IsBinding(Present(Wrap([None], schemas)), schemas, Wrap([None], schemas))
  {
    var s: Binding := [None];
    assert Present(s) == Present([]);
    assert UnwrapAll(schemas)[0] == Schema.Optional(Utf8);
    assert Wrap(s, schemas) == s;
    BindIsPreferred([], schemas);
  }
}
