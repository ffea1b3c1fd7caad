/** What a relay rule, or a pair of domains reached through several rules, may
    carry: every DNS-SD class, or a finite set of them (internal/mdns/reflect.go).
    The universe of classes is every string, so "every class" is never a finite set. */
module ClassSets {
  import opened Strings

  datatype ClassSet = ClassSet(all: bool, classes: set<string>)

  predicate Allows(cs: ClassSet, c: string) {
    cs.all || c in cs.classes
  }

  predicate Empty(cs: ClassSet) {
    !cs.all && cs.classes == {}
  }

  function ClassesOf(services: seq<string>): ClassSet {
    ClassSet("*" in services, set s | s in services && s != "*" :: Lower(s))
  }

  /** Class names as the algebra keeps them: lower-case, never the wildcard. */
  ghost predicate Clean(cs: ClassSet) {
    forall c {:trigger CleanName(c)} | c in cs.classes :: CleanName(c)
  }

  predicate CleanName(c: string) {
    Lower(c) == c && c != "*"
  }

  lemma ClassesOfClean(services: seq<string>)
    ensures Clean(ClassesOf(services))
  {
    forall s | s in services && s != "*"
      ensures Lower(Lower(s)) == Lower(s) && Lower(s) != "*"
    {
      LowerIdempotent(s);
      LowerWildcard(s);
    }
  }

  /** Composing two rules: a class has to be allowed by both. */
  function Intersect(c: ClassSet, o: ClassSet): (r: ClassSet)
    ensures forall x :: Allows(r, x) <==> Allows(c, x) && Allows(o, x)
    ensures Clean(c) && Clean(o) ==> Clean(r)
  {
    if o.all then c
    else if c.all then o
    else ClassSet(false, c.classes * o.classes)
  }

  /** Reaching one pair by two paths: a class is allowed by either. */
  function Union(c: ClassSet, o: ClassSet): (r: ClassSet)
    ensures forall x :: Allows(r, x) <==> Allows(c, x) || Allows(o, x)
    ensures Clean(c) && Clean(o) ==> Clean(r)
  {
    if c.all || o.all then ClassSet(true, {}) else ClassSet(false, c.classes + o.classes)
  }

  lemma NonEmptyAllowsSome(cs: ClassSet) returns (c: string)
    requires !Empty(cs)
    ensures Allows(cs, c)
  {
    if cs.all { c := ""; } else { c :| c in cs.classes; }
  }
}
