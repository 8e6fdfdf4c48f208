/** The records and string unions of the storefront (types.ts). */
module Types {

  /** The five tabs of the bottom navigation bar (`TabType`). */
  datatype Tab = Home | Reserve | Gallery | Menu | Profile

  /** The string each tab value is spelled as in `types.ts`. */
  function TabKey(t: Tab): string
  {
    match t
    case Home => "home"
    case Reserve => "reserve"
    case Gallery => "gallery"
    case Menu => "menu"
    case Profile => "profile"
  }

  datatype PieceCategory = Estatueta | Caneca | Prato | Vaso

  /** A ceramic piece that can be reserved for painting. Prices are whole
      amounts of meticais in every fixture, so they are integers here. */
  datatype Piece = Piece(
    id: string,
    name: string,
    category: PieceCategory,
    price: int,
    image: string,
    description: string)

  /** The union of category names a menu item may carry. */
  datatype MenuCategory = Entradas | Principal | Pizzas | Cafes | Bubbles | Artesanais | Cervejas

  /** The string each menu category is spelled as; the filter compares these. */
  function CategoryLabel(c: MenuCategory): string
  {
    match c
    case Entradas => "Entradas"
    case Principal => "Principal"
    case Pizzas => "Pizzas"
    case Cafes => "Cafés"
    case Bubbles => "Bubbles"
    case Artesanais => "Artesanais"
    case Cervejas => "Cervejas"
  }

  /** A menu entry. The optional `isNew` flag is `false` when absent. */
  datatype MenuItem = MenuItem(
    id: string,
    name: string,
    category: MenuCategory,
    description: string,
    isNew: bool)
}
