/** A compiler listing: the files a program reaches, and the rows that say which import reached them. */
module Listing {
  import opened Graphs
  import opened Wrappers

  datatype Extension = Mts | Mjs | Cts | Cjs | Other

  /** A listed file; outside marks an embedded lib or a path above the repository. */
  datatype File = File(dir: string, name: string, ext: Extension, outside: bool)

  datatype Class = ModuleClass | CommonClass | PlainClass

  function ExtensionClass(f: File): Class {
    match f.ext
    case Mts | Mjs => ModuleClass
    case Cts | Cjs => CommonClass
    case Other => PlainClass
  }

  datatype Mode = Import | Require
  datatype Spec = Spec(mode: Mode, text: string)

  /** What a source file's scan keeps: its module specifiers, and a digest of everything else. */
  datatype CachedSource = CachedSource(specs: seq<Spec>, rest: string)

  /** A row of the listing that an import of one file wrote. */
  datatype Row<+T> = Row(from: File, specifier: string, value: T)

  /** One file the compiler probed for an import, and what the import resolved to. */
  datatype Probe = Probe(path: string, resolved: Option<File>)

  datatype Resolution = Resolution(to: Option<File>, probes: seq<Probe>)
  datatype Site = Site(dir: string, format: Class, spec: Spec)

  /**
   * The compiler: an import resolves by the directory, extension class and spec that hold it, a file
   * whose imports are not scanned keeps its rows, and the entries come from roots and options.
   */
  datatype Compiler = Compiler(entries: set<File>, resolutions: map<Site, Resolution>,
                               keptEdges: set<Row<File>>, keptProbes: set<Row<Probe>>)

  type Tree = map<File, CachedSource>

  function Resolve(c: Compiler, f: File, s: Spec): Resolution {
    var site := Site(f.dir, ExtensionClass(f), s);
    if site in c.resolutions then c.resolutions[site] else Resolution(None, [])
  }

  function Targets(c: Compiler, f: File, s: Spec): set<File> {
    match Resolve(c, f, s).to
    case None => {}
    case Some(to) => {to}
  }

  function Probes(c: Compiler, f: File, s: Spec): set<Probe> {
    Elements(Resolve(c, f, s).probes)
  }

  // ---- Rows, for edges and probes alike ----

  /** The values a spec of a file writes. */
  type Values<!T> = (File, Spec) -> set<T>

  function EdgeValues(c: Compiler): Values<File> {
    (f, s) => Targets(c, f, s)
  }

  function ProbeValues(c: Compiler): Values<Probe> {
    (f, s) => Probes(c, f, s)
  }

  ghost predicate Written<T(!new)>(v: Values<T>, specs: set<Spec>, r: Row<T>) {
    exists s :: s in specs && s.text == r.specifier && r.value in v(r.from, s)
  }

  /** The rows of f are those its specs write. */
  ghost predicate RowsFor<T(!new)>(rows: seq<Row<T>>, v: Values<T>, f: File, specs: set<Spec>) {
    forall r: Row<T> {:trigger r in rows} {:trigger Written(v, specs, r)} :: r.from == f ==>
        (r in rows <==> Written(v, specs, r))
  }

  /** Every file but f keeps its rows. */
  ghost predicate SameBut<T(!new)>(rows: seq<Row<T>>, rows': seq<Row<T>>, f: File) {
    forall r: Row<T> {:trigger r in rows} {:trigger r in rows'} :: r.from != f ==> (r in rows <==> r in rows')
  }

  /** Each text stands in one mode. */
  predicate UniqueTexts(specs: seq<Spec>) {
    forall s, t | s in specs && t in specs :: s.text == t.text ==> s == t
  }

  function Without<T(==, !new)>(rows: seq<Row<T>>, f: File, text: string): (kept: seq<Row<T>>)
    ensures forall r :: r in kept <==> r in rows && !(r.from == f && r.specifier == text)
  {
    if rows == [] then []
    else (if rows[0].from == f && rows[0].specifier == text then [] else [rows[0]]) + Without(rows[1..], f, text)
  }

  /** The rows another file's spec wrote, as rows of f. */
  function Copied<T(==, !new)>(rows: seq<Row<T>>, from: File, text: string, f: File): (copies: seq<Row<T>>)
    ensures forall r :: r in copies <==> r.from == f && r.specifier == text && Row(from, text, r.value) in rows
  {
    if rows == [] then []
    else (if rows[0].from == from && rows[0].specifier == text then [rows[0].(from := f)] else [])
         + Copied(rows[1..], from, text, f)
  }

  lemma WithoutText<T(!new)>(rows: seq<Row<T>>, v: Values<T>, f: File, specs: set<Spec>, s: Spec)
    requires RowsFor(rows, v, f, specs) && forall t :: t in specs && t.text == s.text ==> t == s
    ensures RowsFor(Without(rows, f, s.text), v, f, specs - {s}) && SameBut(rows, Without(rows, f, s.text), f)
  {
    forall r: Row<T> | r.from == f
      ensures r in Without(rows, f, s.text) <==> Written(v, specs - {s}, r)
    {
      if Written(v, specs, r) {
        var t :| t in specs && t.text == r.specifier && r.value in v(f, t);
        assert t != s ==> t in specs - {s};
      }
      if Written(v, specs - {s}, r) {
        var t :| t in specs - {s} && t.text == r.specifier && r.value in v(f, t);
        assert t in specs;
      }
    }
  }

  /** The copied rows write one more spec of f, whenever they write the same values there. */
  lemma WithCopies<T(!new)>(rows: seq<Row<T>>, added: seq<Row<T>>, v: Values<T>, f: File, specs: set<Spec>, s: Spec)
    requires RowsFor(rows, v, f, specs)
    requires forall r :: r in added <==> r.from == f && r.specifier == s.text && r.value in v(f, s)
    ensures RowsFor(rows + added, v, f, specs + {s}) && SameBut(rows, rows + added, f)
  {
    forall r: Row<T> | r.from == f
      ensures r in rows + added <==> Written(v, specs + {s}, r)
    {
      if r in added {
        assert s in specs + {s};
      } else if r in rows {
        var t :| t in specs && t.text == r.specifier && r.value in v(f, t);
        assert t in specs + {s};
      }
      if Written(v, specs + {s}, r) {
        var t :| t in specs + {s} && t.text == r.specifier && r.value in v(f, t);
        if t in specs {
          assert Written(v, specs, r);
        } else {
          assert t == s;
        }
      }
    }
  }

  lemma KeepsOthers<T(!new)>(rows: seq<Row<T>>, rows': seq<Row<T>>, v: Values<T>, f: File, g: File, specs: set<Spec>)
    requires SameBut(rows, rows', f) && g != f && RowsFor(rows, v, g, specs)
    ensures RowsFor(rows', v, g, specs)
  {
  }

  /** What the rows a file copies from hold, when each of its texts stands in one mode. */
  lemma CopiesWrite<T(!new)>(rows: seq<Row<T>>, v: Values<T>, from: File, specs: seq<Spec>, s: Spec, f: File)
    requires RowsFor(rows, v, from, Elements(specs)) && UniqueTexts(specs) && s in specs && v(from, s) == v(f, s)
    ensures forall r :: r in Copied(rows, from, s.text, f) <==>
        r.from == f && r.specifier == s.text && r.value in v(f, s)
  {
    forall r: Row<T> | r.from == f && r.specifier == s.text
      ensures r in Copied(rows, from, s.text, f) <==> r.value in v(f, s)
    {
      var row := Row(from, s.text, r.value);
      assert s in Elements(specs);
      assert row in rows <==> Written(v, Elements(specs), row);
      assert Written(v, Elements(specs), row) <==> r.value in v(f, s);
    }
  }

  // ---- Programs ----

  ghost predicate ClosedUnder(edges: iset<Row<File>>, s: set<File>) {
    forall e {:trigger e in edges} :: e in edges && e.from in s ==> e.value in s
  }

  /** The least set of files that holds the entries and is closed under the edges. */
  ghost predicate IsProgram(edges: iset<Row<File>>, entries: set<File>, s: set<File>) {
    && entries <= s
    && ClosedUnder(edges, s)
    && forall t: set<File> {:trigger s <= t} :: entries <= t && ClosedUnder(edges, t) ==> s <= t
  }

  ghost predicate TreeEdge(c: Compiler, tree: Tree, e: Row<File>) {
    if e.from in tree then Written(EdgeValues(c), Elements(tree[e.from].specs), e) else e in c.keptEdges
  }

  ghost function TreeEdges(c: Compiler, tree: Tree): iset<Row<File>> {
    iset e | TreeEdge(c, tree, e)
  }

  ghost function RowSet(rows: seq<Row<File>>): iset<Row<File>> {
    iset e | e in rows
  }
}
